/**
 What declarations mean (sections 2.8, 3.2, 3.3, 4.2 and 4.7 of XML 1.0): the
 tokens of a declaration are written down from its parts, and after them the
 parser has the DTD the standard asks for.
 */
module XmlDeclarations {
  import opened XmlScan
  import opened XmlValue
  import opened XmlContent
  import opened XmlPool
  import opened XmlTree
  import opened XmlPrinted
  import opened XmlRoundTrip
  import opened XmlCharRefs
  import opened XmlEntities
  import opened XmlLiterals
  import opened XmlProlog
  import XmlRole

  type Lexemes = seq<XmlRole.Lexeme>

  datatype ExternalId = System(system: string) | Public(public: string, system: string)

  /** What an entity is declared to be: a literal, something outside, or outside data in a notation. */
  datatype EntityDef = Literally(value: seq<Piece>) | Outside(id: ExternalId) | Data(id: ExternalId, notation: string)

  datatype AttType = CdataType | Keyword(word: string) | Choice(tokens: seq<(bool, string)>) | Notations(names: seq<string>)

  datatype AttDefault = Implied | Required | Fixed(value: seq<Piece>) | Given(value: seq<Piece>)

  datatype AttDef = AttDef(name: string, kind: AttType, default_: AttDefault)

  datatype Declaration =
    | General(name: string, def: EntityDef)
    | Parameter(name: string, def: EntityDef)
    | Attributes(element: string, defs: seq<AttDef>)
    | ElementType(name: string, spec: XmlRole.ContentSpec, model: Lexemes)
    | Notation(name: string, public: Option<string>, system: Option<string>)
    | Aside(tok: Token, text: string)
    | ParameterReference(text: string)

  const KEYWORDS: set<string> := {"ID", "IDREF", "IDREFS", "ENTITY", "ENTITIES", "NMTOKEN", "NMTOKENS"}

  /** The characters of a public identifier, production 13. */
  predicate Pubid(c: char)
  {
    || 'a' <= c <= 'z' || 'A' <= c <= 'Z' || '0' <= c <= '9'
    || c in {' ', '\r', '\n', '-', '\'', '(', ')', '+', ',', '.', '/', ':', '=', '?', ';', '!', '*', '#', '@', '$', '_', '%'}
  }

  // ---- Tokens ----

  function Word(text: string): XmlRole.Lexeme { XmlRole.Lexeme(Name, text) }

  /** A literal with the quotes it can have. */
  function Quoted(v: string): string { if '\"' in v then "'" + v + "'" else "\"" + v + "\"" }

  function Lit(v: string): XmlRole.Lexeme { XmlRole.Lexeme(Literal, Quoted(v)) }

  const CLOSE := XmlRole.Lexeme(DeclClose, ">")

  function IdTokens(id: ExternalId): Lexemes
  {
    match id case System(s) => [Word("SYSTEM"), Lit(s)] case Public(p, s) => [Word("PUBLIC"), Lit(p), Lit(s)]
  }

  function DefTokens(def: EntityDef): Lexemes
  {
    match def
    case Literally(value) => [Lit(PrintPieces(value)), CLOSE]
    case Outside(id) => IdTokens(id) + [CLOSE]
    case Data(id, notation) => IdTokens(id) + [Word("NDATA"), Word(notation), CLOSE]
  }

  function Listed(l: Lexemes): Lexemes
    requires l != []
  {
    if |l| == 1 then l else [l[0], XmlRole.Lexeme(Or, "|")] + Listed(l[1..])
  }

  function TokenOf(t: (bool, string)): XmlRole.Lexeme { XmlRole.Lexeme(if t.0 then Name else Nmtoken, t.1) }

  function ChoiceTokens(l: seq<(bool, string)>): (r: Lexemes) ensures |r| == |l| { seq(|l|, i requires 0 <= i < |l| => TokenOf(l[i])) }

  function NameTokens(l: seq<string>): (r: Lexemes) ensures |r| == |l| { seq(|l|, i requires 0 <= i < |l| => Word(l[i])) }

  function TypeTokens(t: AttType): Lexemes
    requires (t.Choice? ==> t.tokens != []) && (t.Notations? ==> t.names != [])
  {
    match t
    case CdataType => [Word("CDATA")]
    case Keyword(word) => [Word(word)]
    case Choice(tokens) => [XmlRole.Lexeme(OpenParen, "(")] + Listed(ChoiceTokens(tokens)) + [XmlRole.Lexeme(CloseParen, ")")]
    case Notations(names) => [Word("NOTATION"), XmlRole.Lexeme(OpenParen, "(")] + Listed(NameTokens(names)) + [XmlRole.Lexeme(CloseParen, ")")]
  }

  function DefaultTokens(d: AttDefault): Lexemes
  {
    match d
    case Implied => [XmlRole.Lexeme(PoundName, "#IMPLIED")]
    case Required => [XmlRole.Lexeme(PoundName, "#REQUIRED")]
    case Fixed(value) => [XmlRole.Lexeme(PoundName, "#FIXED"), Lit(PrintPieces(value))]
    case Given(value) => [Lit(PrintPieces(value))]
  }

  predicate TypeFits(t: AttType)
  {
    match t
    case CdataType => true
    case Keyword(word) => word in KEYWORDS
    case Choice(tokens) => tokens != []
    case Notations(names) => names != []
  }

  function AttTokens(d: AttDef): Lexemes
    requires TypeFits(d.kind)
  {
    [Word(d.name)] + (TypeTokens(d.kind) + DefaultTokens(d.default_))
  }

  predicate AllFit(l: seq<AttDef>) { forall i :: 0 <= i < |l| ==> TypeFits(l[i].kind) }

  function AttsTokens(l: seq<AttDef>): Lexemes
    requires AllFit(l)
  {
    if l == [] then [CLOSE] else AttTokens(l[0]) + AttsTokens(l[1..])
  }

  function NotationTokens(public: Option<string>, system: Option<string>): Lexemes
  {
    (if public.Some? then [Word("PUBLIC"), Lit(public.value)] else [Word("SYSTEM")]) + (if system.Some? then [Lit(system.value)] else []) + [CLOSE]
  }

  function Open(keyword: string): XmlRole.Lexeme { XmlRole.Lexeme(DeclOpen, keyword) }

  /** A declaration as tokens, but for the white space between them. */
  function Tokens(d: Declaration): Lexemes
    requires d.Attributes? ==> AllFit(d.defs)
  {
    match d
    case General(name, def) => [Open("<!ENTITY"), Word(name)] + DefTokens(def)
    case Parameter(name, def) => [Open("<!ENTITY"), XmlRole.Lexeme(Percent, "%"), Word(name)] + DefTokens(def)
    case Attributes(element, defs) => [Open("<!ATTLIST"), Word(element)] + AttsTokens(defs)
    case ElementType(name, _, model) => [Open("<!ELEMENT"), Word(name)] + (model + [CLOSE])
    case Notation(name, public, system) => [Open("<!NOTATION"), Word(name)] + NotationTokens(public, system)
    case Aside(tok, text) => [XmlRole.Lexeme(tok, text)]
    case ParameterReference(text) => [XmlRole.Lexeme(ParamEntityRef, text)]
  }

  // ---- What may be declared ----

  ghost predicate LegalDef(enc: Encoding, def: EntityDef)
  {
    def.Literally? ==> LegalPieces(enc, def.value, '%')
  }

  ghost predicate LegalAtt(enc: Encoding, d: AttDef)
  {
    && TypeFits(d.kind)
    && match d.default_ case Fixed(value) => LegalPieces(enc, value, '<') case Given(value) => LegalPieces(enc, value, '<') case _ => true
  }

  ghost predicate LegalDeclaration(enc: Encoding, d: Declaration)
  {
    match d
    case General(_, def) => LegalDef(enc, def)
    case Parameter(_, def) => LegalDef(enc, def) && !def.Data?
    case Attributes(_, defs) => forall i :: 0 <= i < |defs| ==> LegalAtt(enc, defs[i])
    case ElementType(_, spec, model) =>
      spec.Legal() && XmlRole.IsContentSpec(spec, model) && forall i :: 0 <= i < |model| ==> model[i].tok != DeclClose && model[i].tok != PrologS
    case Notation(_, public, system) => public.Some? || system.Some?
    case Aside(tok, _) => tok == Pi || tok == Comment
    case ParameterReference(_) => true
  }

  // ---- What it means ----

  predicate LegalPublic(p: string) { forall i :: 0 <= i < |p| ==> Pubid(p[i]) }

  predicate PublicFits(id: ExternalId) { id.Public? ==> LegalPublic(id.public) }

  /** The entity, if the declaration is in order. */
  function EntityOf(def: EntityDef): Option<Entity>
  {
    match def
    case Literally(value) => if AllChars(value) then Some(Internal(Replacement(value))) else None
    case Outside(id) => if PublicFits(id) then Some(External) else None
    case Data(id, _) => if PublicFits(id) then Some(Unparsed) else None
  }

  /** The first declaration of an entity counts; one of the five, or one behind something unread, does not (section 4.2). */
  function WithEntity(dtd: Dtd, name: string, e: Entity): Dtd
  {
    if name in FIVE || !dtd.complete || name in dtd.entities then dtd else dtd.(entities := dtd.entities[name := e])
  }

  /** An attribute is declared behind those that are, unless something has not been read (section 3.3). */
  function WithAtt(dtd: Dtd, element: string, att: DefaultAtt): Dtd
  {
    if !dtd.complete then dtd else dtd.(elementAtts := dtd.elementAtts[element := Defaults(dtd, element) + [att]])
  }

  /** With the value for its type, where there is one. */
  function WithDef(internal: Encoding, dtd: Dtd, element: string, d: AttDef): Option<Dtd>
  {
    match d.default_
    case Implied | Required => Some(WithAtt(dtd, element, DefaultAtt(d.name, d.kind.CdataType?, "", false)))
    case Fixed(value) => WithValue(internal, dtd, element, d.name, d.kind.CdataType?, value)
    case Given(value) => WithValue(internal, dtd, element, d.name, d.kind.CdataType?, value)
  }

  function WithValue(internal: Encoding, dtd: Dtd, element: string, name: string, isCdata: bool, value: seq<Piece>): Option<Dtd>
  {
    match Meaning(internal, dtd, {}, value)
    case ValueError(_) => None
    case Value(text) => Some(WithAtt(dtd, element, DefaultAtt(name, isCdata, Typed(isCdata, text), true)))
  }

  function WithDefs(internal: Encoding, dtd: Dtd, element: string, l: seq<AttDef>): Option<Dtd>
    decreases |l|
  {
    if l == [] then Some(dtd)
    else match WithDef(internal, dtd, element, l[0]) case None => None case Some(dtd') => WithDefs(internal, dtd', element, l[1..])
  }

  /** The DTD after a declaration, or none if it is not in order. */
  function DtdAfter(internal: Encoding, dtd: Dtd, d: Declaration): Option<Dtd>
  {
    match d
    case General(name, def) => (match EntityOf(def) case None => None case Some(e) => Some(WithEntity(dtd, name, e)))
    case Parameter(_, def) => if EntityOf(def).Some? then Some(dtd) else None
    case Attributes(element, defs) => WithDefs(internal, dtd, element, defs)
    case Notation(_, public, _) => if public.Some? ==> LegalPublic(public.value) then Some(dtd) else None
    case ParameterReference(_) => Some(dtd.(complete := false))
    case _ => Some(dtd)
  }

  // ---- Turns ----

  lemma {:induction false} OneMore(r: Reader, p: Prolog, x: XmlRole.Lexeme, rest: Lexemes)
    ensures After(r, p, [x] + rest) == match Turn(r, p, x.tok, x.text) { case Continue(q) => After(r, q, rest) case _ => None }
    ensures After(r, p, []) == Some(p)
  {
    hide Turn;
    assert ([x] + rest)[1..] == rest;
  }

  /** After one list of tokens and then another. */
  lemma {:induction false} AfterBoth(r: Reader, p: Prolog, a: Lexemes, b: Lexemes)
    ensures After(r, p, a + b) == match After(r, p, a) { case None => None case Some(q) => After(r, q, b) }
    decreases |a|
  {
    hide Turn;
    if a == [] {
      assert a + b == b;
    } else {
      assert (a + b)[0] == a[0] && (a + b)[1..] == a[1..] + b;
      if Turn(r, p, a[0].tok, a[0].text).Continue? { AfterBoth(r, Turn(r, p, a[0].tok, a[0].text).prolog, a[1..], b); }
    }
  }

  lemma {:induction false} TurnOf(r: Reader, p: Prolog, x: XmlRole.Lexeme, h: PrologHandler, role: Role)
    requires !p.at.InElement? && TokenRole(p.at, x.tok, x.text) == Some((h, role))
    ensures Turn(r, p, x.tok, x.text) == Act(r, p.(at := h), role, x.text)
  {
    hide TokenRole; hide Act;
  }

  lemma {:induction false} QuietTurn(r: Reader, p: Prolog, x: XmlRole.Lexeme, h: PrologHandler, role: Role)
    requires !p.at.InElement? && TokenRole(p.at, x.tok, x.text) == Some((h, role))
    requires role in {NoRole, DoctypeName, DoctypeClose, EntitySystemId, NotationName, NotationSystemId, NotationNoSystemId,
                      AttributeTypeOther, AttributeEnumValue, AttributeNotationValue}
    ensures Turn(r, p, x.tok, x.text) == Continue(p.(at := h))
  {
    hide TokenRole;
    TurnOf(r, p, x, h, role);
  }

  /** The tokens the subset begins a declaration with. */
  lemma {:induction false} OpenRoles()
    ensures TokenRole(Subset, DeclOpen, "<!ENTITY") == Some((Entity0, NoRole)) && TokenRole(Subset, DeclOpen, "<!ATTLIST") == Some((Attlist0, NoRole))
    ensures TokenRole(Subset, DeclOpen, "<!ELEMENT") == Some((InElement(XmlRole.Element0), NoRole)) && TokenRole(Subset, DeclOpen, "<!NOTATION") == Some((Notation0, NoRole))
  {
    hide InEntity; hide InAttlist;
  }

  lemma {:induction false} SubsetRoles(text: string)
    ensures TokenRole(Subset, Pi, text) == Some((Subset, NoRole)) == TokenRole(Subset, Comment, text)
    ensures TokenRole(Subset, ParamEntityRef, text) == Some((Subset, ParamEntityReferenced)) && TokenRole(DeclEnd, DeclClose, text) == Some((Subset, NoRole))
  {
    hide InEntity; hide InAttlist;
  }

  lemma {:induction false} EntityNameRoles(text: string)
    ensures TokenRole(Entity0, Percent, text) == Some((Entity1, NoRole)) && TokenRole(Entity0, Name, text) == Some((Entity2, GeneralEntityName))
    ensures TokenRole(Entity1, Name, text) == Some((Entity7, ParamEntityName))
  {
    hide TokenRole;
    EntityTokenRole(Entity0, Percent, text);
    EntityTokenRole(Entity0, Name, text);
    EntityTokenRole(Entity1, Name, text);
  }

  /** From the keyword or literal of a general entity on. */
  lemma {:induction false} GeneralRoles(text: string)
    ensures TokenRole(Entity2, Literal, text) == Some((DeclEnd, EntityText))
    ensures TokenRole(Entity2, Name, "SYSTEM") == Some((Entity4, NoRole)) && TokenRole(Entity2, Name, "PUBLIC") == Some((Entity3, NoRole))
    ensures TokenRole(Entity3, Literal, text) == Some((Entity4, EntityPublicId)) && TokenRole(Entity4, Literal, text) == Some((Entity5, EntitySystemId))
  {
    hide TokenRole;
    EntityTokenRole(Entity2, Literal, text);
    EntityTokenRole(Entity2, Name, "SYSTEM");
    EntityTokenRole(Entity2, Name, "PUBLIC");
    EntityTokenRole(Entity3, Literal, text);
    EntityTokenRole(Entity4, Literal, text);
  }

  lemma {:induction false} DataRoles(text: string)
    ensures TokenRole(Entity5, DeclClose, text) == Some((Subset, NoRole)) && TokenRole(Entity5, Name, "NDATA") == Some((Entity6, NoRole))
    ensures TokenRole(Entity6, Name, text) == Some((DeclEnd, EntityNotationName))
  {
    hide TokenRole;
    EntityTokenRole(Entity5, DeclClose, text);
    EntityTokenRole(Entity5, Name, "NDATA");
    EntityTokenRole(Entity6, Name, text);
  }

  lemma {:induction false} ParameterRoles(text: string)
    ensures TokenRole(Entity7, Literal, text) == Some((DeclEnd, EntityText))
    ensures TokenRole(Entity7, Name, "SYSTEM") == Some((Entity9, NoRole)) && TokenRole(Entity7, Name, "PUBLIC") == Some((Entity8, NoRole))
    ensures TokenRole(Entity8, Literal, text) == Some((Entity9, EntityPublicId)) && TokenRole(Entity9, Literal, text) == Some((DeclEnd, EntitySystemId))
  {
    hide TokenRole;
    EntityTokenRole(Entity7, Literal, text);
    EntityTokenRole(Entity7, Name, "SYSTEM");
    EntityTokenRole(Entity7, Name, "PUBLIC");
    EntityTokenRole(Entity8, Literal, text);
    EntityTokenRole(Entity9, Literal, text);
  }

  predicate AttlistPart(h: PrologHandler)
  {
    h.Attlist0? || h.Attlist1? || h.Attlist2? || h.Attlist3? || h.Attlist4? || h.Attlist5? || h.Attlist6? || h.Attlist7? || h.Attlist8? || h.Attlist9?
  }

  lemma {:induction false} AttlistTokenRole(h: PrologHandler, tok: Token, text: string)
    requires AttlistPart(h) && tok != PrologS
    ensures TokenRole(h, tok, text) == InAttlist(h, tok, text)
  {
    hide InAttlist; hide InEntity;
  }

  lemma {:induction false} AttNameRoles(text: string)
    ensures TokenRole(Attlist0, Name, text) == Some((Attlist1, AttlistElementName)) && TokenRole(Attlist1, Name, text) == Some((Attlist2, AttributeName))
    ensures TokenRole(Attlist1, DeclClose, text) == Some((Subset, NoRole))
  {
    hide TokenRole;
    AttlistTokenRole(Attlist0, Name, text);
    AttlistTokenRole(Attlist1, Name, text);
    AttlistTokenRole(Attlist1, DeclClose, text);
  }

  lemma {:induction false} TypeRoles(text: string)
    ensures TokenRole(Attlist2, Name, "CDATA") == Some((Attlist8, AttributeTypeCdata))
    ensures TokenRole(Attlist2, Name, "NOTATION") == Some((Attlist5, NoRole)) && TokenRole(Attlist2, OpenParen, text) == Some((Attlist3, NoRole))
  {
    hide TokenRole; hide OTHER_TYPES;
    OtherTypes();
    AttlistTokenRole(Attlist2, Name, "CDATA");
    AttlistTokenRole(Attlist2, Name, "NOTATION");
    AttlistTokenRole(Attlist2, OpenParen, text);
  }

  lemma {:induction false} ChoiceRoles(text: string)
    ensures TokenRole(Attlist3, Name, text) == Some((Attlist4, AttributeEnumValue)) == TokenRole(Attlist3, Nmtoken, text)
    ensures TokenRole(Attlist4, CloseParen, text) == Some((Attlist8, NoRole)) && TokenRole(Attlist4, Or, text) == Some((Attlist3, NoRole))
  {
    hide TokenRole;
    AttlistTokenRole(Attlist3, Name, text);
    AttlistTokenRole(Attlist3, Nmtoken, text);
    AttlistTokenRole(Attlist4, CloseParen, text);
    AttlistTokenRole(Attlist4, Or, text);
  }

  lemma {:induction false} NotationTypeRoles(text: string)
    ensures TokenRole(Attlist5, OpenParen, text) == Some((Attlist6, NoRole)) && TokenRole(Attlist6, Name, text) == Some((Attlist7, AttributeNotationValue))
    ensures TokenRole(Attlist7, CloseParen, text) == Some((Attlist8, NoRole)) && TokenRole(Attlist7, Or, text) == Some((Attlist6, NoRole))
  {
    hide TokenRole;
    AttlistTokenRole(Attlist5, OpenParen, text);
    AttlistTokenRole(Attlist6, Name, text);
    AttlistTokenRole(Attlist7, CloseParen, text);
    AttlistTokenRole(Attlist7, Or, text);
  }

  lemma {:induction false} OtherTypes()
    ensures "NOTATION" !in OTHER_TYPES && "CDATA" !in OTHER_TYPES && forall w :: w in KEYWORDS ==> w in OTHER_TYPES
  {
    assert OTHER_TYPES[0] == "ID" && OTHER_TYPES[1] == "IDREF" && OTHER_TYPES[2] == "IDREFS" && OTHER_TYPES[3] == "ENTITY" && OTHER_TYPES[4] == "ENTITIES";
    assert OTHER_TYPES[5] == "NMTOKEN" && OTHER_TYPES[6] == "NMTOKENS";
  }

  lemma {:induction false} KeywordRole(word: string)
    requires word in KEYWORDS
    ensures TokenRole(Attlist2, Name, word) == Some((Attlist8, AttributeTypeOther))
  {
    hide TokenRole; hide OTHER_TYPES;
    OtherTypes();
    assert word != "CDATA" && word != "NOTATION";
    AttlistTokenRole(Attlist2, Name, word);
  }

  lemma {:induction false} DefaultRoles(text: string)
    ensures TokenRole(Attlist8, PoundName, "#IMPLIED") == Some((Attlist1, ImpliedValue)) && TokenRole(Attlist8, PoundName, "#REQUIRED") == Some((Attlist1, RequiredValue))
    ensures TokenRole(Attlist8, PoundName, "#FIXED") == Some((Attlist9, NoRole)) && TokenRole(Attlist8, Literal, text) == Some((Attlist1, DefaultValue))
    ensures TokenRole(Attlist9, Literal, text) == Some((Attlist1, FixedValue))
  {
    hide TokenRole;
    AttlistTokenRole(Attlist8, PoundName, "#IMPLIED");
    AttlistTokenRole(Attlist8, PoundName, "#REQUIRED");
    AttlistTokenRole(Attlist8, PoundName, "#FIXED");
    AttlistTokenRole(Attlist8, Literal, text);
    AttlistTokenRole(Attlist9, Literal, text);
  }

  lemma {:induction false} NotationRoles(text: string)
    ensures TokenRole(Notation0, Name, text) == Some((Notation1, NotationName))
    ensures TokenRole(Notation1, Name, "SYSTEM") == Some((Notation3, NoRole)) && TokenRole(Notation1, Name, "PUBLIC") == Some((Notation2, NoRole))
  {
    hide InEntity; hide InAttlist;
  }

  lemma {:induction false} NotationIdRoles(text: string)
    ensures TokenRole(Notation2, Literal, text) == Some((Notation4, NotationPublicId)) && TokenRole(Notation3, Literal, text) == Some((DeclEnd, NotationSystemId))
    ensures TokenRole(Notation4, Literal, text) == Some((DeclEnd, NotationSystemId)) && TokenRole(Notation4, DeclClose, text) == Some((Subset, NotationNoSystemId))
  {
    hide InEntity; hide InAttlist;
  }

  /** Where a keyword is called for, no other name is taken. */
  lemma {:induction false} OnlyKeywords(text: string)
    ensures (TokenRole(Doctype1, Name, text).Some? <==> text in {"SYSTEM", "PUBLIC"}) && (TokenRole(Notation1, Name, text).Some? <==> text in {"SYSTEM", "PUBLIC"})
    ensures (TokenRole(Entity2, Name, text).Some? <==> text in {"SYSTEM", "PUBLIC"}) && (TokenRole(Entity7, Name, text).Some? <==> text in {"SYSTEM", "PUBLIC"})
    ensures TokenRole(Entity5, Name, text).Some? <==> text == "NDATA"
    ensures TokenRole(Attlist2, Name, text).Some? <==> text in KEYWORDS || text == "CDATA" || text == "NOTATION"
    ensures TokenRole(Attlist8, PoundName, text).Some? <==> text in {"#IMPLIED", "#REQUIRED", "#FIXED"}
    ensures TokenRole(Subset, DeclOpen, text).Some? <==> text in {"<!ENTITY", "<!ATTLIST", "<!ELEMENT", "<!NOTATION"}
  {
    hide TokenRole;
    ExternalKeywords(text);
    EntityKeywords(text);
    AttlistKeywords(text);
  }

  lemma {:induction false} EntityKeywords(text: string)
    ensures (TokenRole(Entity2, Name, text).Some? <==> text in {"SYSTEM", "PUBLIC"}) && (TokenRole(Entity7, Name, text).Some? <==> text in {"SYSTEM", "PUBLIC"})
    ensures TokenRole(Entity5, Name, text).Some? <==> text == "NDATA"
  {
    hide TokenRole;
    EntityTokenRole(Entity2, Name, text);
    EntityTokenRole(Entity7, Name, text);
    EntityTokenRole(Entity5, Name, text);
  }

  lemma {:induction false} AttlistKeywords(text: string)
    ensures TokenRole(Attlist2, Name, text).Some? <==> text in KEYWORDS || text == "CDATA" || text == "NOTATION"
    ensures TokenRole(Attlist8, PoundName, text).Some? <==> text in {"#IMPLIED", "#REQUIRED", "#FIXED"}
  {
    hide TokenRole; hide OTHER_TYPES;
    AttlistTokenRole(Attlist2, Name, text);
    AttlistTokenRole(Attlist8, PoundName, text);
    OtherTypes();
    OnlyOtherTypes(text);
  }

  lemma {:induction false} ExternalKeywords(text: string)
    ensures (TokenRole(Doctype1, Name, text).Some? <==> text in {"SYSTEM", "PUBLIC"}) && (TokenRole(Notation1, Name, text).Some? <==> text in {"SYSTEM", "PUBLIC"})
    ensures TokenRole(Subset, DeclOpen, text).Some? <==> text in {"<!ENTITY", "<!ATTLIST", "<!ELEMENT", "<!NOTATION"}
  {
    hide InEntity; hide InAttlist;
  }

  lemma {:induction false} OnlyOtherTypes(text: string)
    ensures text in OTHER_TYPES ==> text in KEYWORDS
  {
  }

  // ---- Public identifiers ----

  lemma {:induction false} QuotedInner(v: string)
    ensures Inner(Quoted(v)) == v
  {
  }

  /** Only the characters of production 13 are taken. */
  lemma {:induction false} PublicChar(enc: Encoding, c: char)
    requires Utf8(enc) && enc.byteType('\r') == CR
    ensures PubidChar(enc, c) <==> Pubid(c)
  {
    if c != '\r' { assert enc.byteType(c) == Utf8Type(c); }
    PublicType(c, enc.byteType(c));
  }

  lemma {:induction false} PublicType(c: char, t: ByteType)
    requires t == if c == '\r' then CR else Utf8Type(c)
    ensures PubidType(t, c) <==> Pubid(c)
  {
    if c as int < 0x80 { PublicAscii(c); }
  }

  lemma {:induction false} PublicAscii(c: char)
    requires c as int < 0x80
    ensures PubidType(AsciiType(c), c) <==> Pubid(c)
  {
  }

  lemma {:induction false} PublicLiteral(enc: Encoding, v: string)
    requires Utf8(enc) && enc.byteType('\r') == CR
    ensures IsPublicId(enc, Quoted(v)) <==> LegalPublic(v)
  {
    hide PubidChar; hide Pubid; hide Utf8; hide Quoted;
    QuotedInner(v);
    forall i | 0 <= i < |v| ensures PubidChar(enc, v[i]) <==> Pubid(v[i]) { PublicChar(enc, v[i]); }
  }
}
