/**
 After a declaration the parser of libjabber has the DTD the standard asks for:
 the handlers of libjabber/xmlrole.c and the actions of prologProcessor in
 libjabber/xmlparse.c, run over the tokens of any declarations.
 */
module XmlDeclared {
  import opened XmlScan
  import opened XmlValue
  import opened XmlContent
  import opened XmlPool
  import opened XmlTree
  import opened XmlPrinted
  import opened XmlRoundTrip
  import opened XmlWords
  import opened XmlCharRefs
  import opened XmlEntities
  import opened XmlLiterals
  import opened XmlProlog
  import opened XmlFormed
  import opened XmlDeclarations
  import XmlRole

  /** Between declarations, with a DTD; nothing else counts there but whether there is an external one. */
  predicate At(p: Prolog, q: Prolog, dtd: Dtd)
  {
    q.at == Subset && q.dtd == dtd && q.decl.hadExternalDoctype == p.decl.hadExternalDoctype
  }

  /** The parser takes the tokens and has the DTD, or refuses them. */
  predicate Gives(r: Reader, p: Prolog, l: Lexemes, dtd: Option<Dtd>)
  {
    match dtd case None => After(r, p, l) == None case Some(d) => After(r, p, l).Some? && At(p, After(r, p, l).value, d)
  }

  /** The encodings of the program, and entities that were declared in well-formed text. */
  ghost predicate Ready(r: Reader, dtd: Dtd)
  {
    Utf8(r.enc) && r.enc.byteType('\r') == CR && Utf8(r.internal) && Whole(r.internal, dtd)
  }

  // ---- Steps ----

  lemma {:induction false} Goes(r: Reader, p: Prolog, x: XmlRole.Lexeme, h: PrologHandler, role: Role, rest: Lexemes)
    requires !p.at.InElement? && TokenRole(p.at, x.tok, x.text) == Some((h, role))
    ensures After(r, p, [x] + rest) == match Act(r, p.(at := h), role, x.text) { case Continue(q) => After(r, q, rest) case _ => None }
  {
    hide TokenRole; hide Act; hide Turn;
    OneMore(r, p, x, rest);
    TurnOf(r, p, x, h, role);
  }

  /** Roles nothing is done for. */
  predicate Quiet(role: Role)
  {
    role in {NoRole, DoctypeName, DoctypeClose, EntitySystemId, NotationName, NotationSystemId, NotationNoSystemId,
             AttributeTypeOther, AttributeEnumValue, AttributeNotationValue}
  }

  lemma {:induction false} Passes(r: Reader, p: Prolog, x: XmlRole.Lexeme, h: PrologHandler, role: Role, rest: Lexemes)
    requires !p.at.InElement? && TokenRole(p.at, x.tok, x.text) == Some((h, role)) && Quiet(role)
    ensures After(r, p, [x] + rest) == After(r, p.(at := h), rest)
  {
    hide TokenRole; hide Act; hide Turn;
    OneMore(r, p, x, rest);
    QuietTurn(r, p, x, h, role);
  }

  lemma {:induction false} Closes(r: Reader, p: Prolog)
    requires p.at == DeclEnd
    ensures After(r, p, [CLOSE]) == Some(p.(at := Subset))
  {
    hide TokenRole; hide After; hide CLOSE;
    CloseIs();
    SubsetRoles(">");
    Passes(r, p, CLOSE, Subset, NoRole, []);
    OneMore(r, p.(at := Subset), CLOSE, []);
    assert [CLOSE] + [] == [CLOSE];
  }

  lemma {:induction false} CloseIs()
    ensures CLOSE == XmlRole.Lexeme(DeclClose, ">")
  {
  }

  lemma {:induction false} WordIs(text: string)
    ensures Word(text) == XmlRole.Lexeme(Name, text) && Lit(text) == XmlRole.Lexeme(Literal, Quoted(text)) && Open(text) == XmlRole.Lexeme(DeclOpen, text)
  {
    hide Quoted;
  }

  lemma {:induction false} Opens(r: Reader, p: Prolog, keyword: string, h: PrologHandler, rest: Lexemes)
    requires p.at == Subset && TokenRole(Subset, DeclOpen, keyword) == Some((h, NoRole))
    ensures After(r, p, [Open(keyword)] + rest) == After(r, p.(at := h), rest)
  {
    hide TokenRole; hide After;
    WordIs(keyword);
    Passes(r, p, Open(keyword), h, NoRole, rest);
  }

  // ---- Entities ----

  /** A public identifier, when its role comes. */
  lemma {:induction false} PublicActs(r: Reader, p: Prolog, role: Role, v: string)
    requires Utf8(r.enc) && r.enc.byteType('\r') == CR && role in {DoctypePublicId, EntityPublicId, NotationPublicId}
    ensures Act(r, p, role, Quoted(v)) == if LegalPublic(v) then Continue(p) else Refuse(Syntax)
  {
    hide IsPublicId; hide LegalPublic; hide Utf8; hide Quoted;
    PublicLiteral(r.enc, v);
  }

  lemma {:induction false} IdStarts(r: Reader, p: Prolog, id: ExternalId, rest: Lexemes)
    requires Utf8(r.enc) && r.enc.byteType('\r') == CR && (p.at == Entity2 || p.at == Entity7)
    ensures After(r, p, IdTokens(id) + rest) ==
            if PublicFits(id) then After(r, p.(at := if p.at == Entity2 then Entity5 else DeclEnd), rest) else None
  {
    hide TokenRole; hide After; hide Utf8; hide LegalPublic; hide Act; hide Quoted; hide Lit; hide Word;
    var word, id1, id2 := if p.at == Entity2 then Entity4 else Entity9, if p.at == Entity2 then Entity3 else Entity8, if p.at == Entity2 then Entity5 else DeclEnd;
    match id
    case System(s) =>
      IdRoles(p.at, Quoted(s));
      WordIs("SYSTEM");
      WordIs(s);
      assert IdTokens(id) + rest == [Word("SYSTEM")] + ([Lit(s)] + rest);
      Passes(r, p, Word("SYSTEM"), word, NoRole, [Lit(s)] + rest);
      Passes(r, p.(at := word), Lit(s), id2, EntitySystemId, rest);
    case Public(v, s) =>
      IdRoles(p.at, Quoted(v));
      IdRoles(p.at, Quoted(s));
      WordIs("PUBLIC");
      WordIs(v);
      WordIs(s);
      assert IdTokens(id) + rest == [Word("PUBLIC")] + ([Lit(v)] + ([Lit(s)] + rest));
      Passes(r, p, Word("PUBLIC"), id1, NoRole, [Lit(v)] + ([Lit(s)] + rest));
      Goes(r, p.(at := id1), Lit(v), word, EntityPublicId, [Lit(s)] + rest);
      PublicActs(r, p.(at := word), EntityPublicId, v);
      Passes(r, p.(at := word), Lit(s), id2, EntitySystemId, rest);
  }

  lemma {:induction false} IdRoles(h: PrologHandler, text: string)
    requires h == Entity2 || h == Entity7
    ensures var word, id1, id2 := if h == Entity2 then Entity4 else Entity9, if h == Entity2 then Entity3 else Entity8, if h == Entity2 then Entity5 else DeclEnd;
            && TokenRole(h, Name, "SYSTEM") == Some((word, NoRole)) && TokenRole(h, Name, "PUBLIC") == Some((id1, NoRole))
            && TokenRole(id1, Literal, text) == Some((word, EntityPublicId)) && TokenRole(word, Literal, text) == Some((id2, EntitySystemId))
            && TokenRole(h, Literal, text) == Some((DeclEnd, EntityText))
  {
    hide TokenRole;
    GeneralRoles(text);
    ParameterRoles(text);
  }

  /** The literal of an entity. */
  lemma {:induction false} LiteralActs(r: Reader, p: Prolog, value: seq<Piece>)
    requires Utf8(r.enc) && LegalPieces(r.enc, value, '%')
    ensures Act(r, p, EntityText, Quoted(PrintPieces(value))) ==
            if AllChars(value) then Continue(DefineEntity(p, Internal(Replacement(value)))) else Refuse(BadCharRef)
  {
    hide EntityValue; hide Utf8; hide LegalPieces; hide PrintPieces; hide Replacement; hide AllChars; hide Quoted; hide DefineEntity; hide Inner;
    QuotedInner(PrintPieces(value));
    EntityLiteral(r.enc, value);
  }

  /** Behind its name: what has been named is defined, or nothing. */
  lemma {:induction false} DefTaken(r: Reader, p: Prolog, def: EntityDef)
    requires Utf8(r.enc) && r.enc.byteType('\r') == CR && LegalDef(r.enc, def)
    requires p.at == Entity2 || (p.at == Entity7 && !def.Data?)
    ensures After(r, p, DefTokens(def)) ==
            match EntityOf(def)
            case None => None
            case Some(e) => Some((if def.Outside? then p else DefineEntity(p, e)).(at := Subset))
  {
    hide TokenRole; hide After; hide Utf8; hide LegalPieces; hide Act; hide Quoted; hide Lit; hide Word; hide CLOSE; hide PrintPieces; hide AllChars; hide Replacement;
    hide LegalPublic; hide IdTokens; hide DefineEntity;
    match def
    case Literally(value) =>
      var v := PrintPieces(value);
      IdRoles(p.at, Quoted(v));
      WordIs(v);
      assert DefTokens(def) == [Lit(v)] + [CLOSE];
      Goes(r, p, Lit(v), DeclEnd, EntityText, [CLOSE]);
      LiteralActs(r, p.(at := DeclEnd), value);
      DefinedAt(p, Internal(Replacement(value)));
      if AllChars(value) { Closes(r, DefineEntity(p.(at := DeclEnd), Internal(Replacement(value)))); }
    case Outside(id) =>
      IdStarts(r, p, id, [CLOSE]);
      if p.at == Entity2 { DataCloses(r, p.(at := Entity5)); } else { Closes(r, p.(at := DeclEnd)); }
    case Data(id, notation) =>
      var rest := [Word("NDATA"), Word(notation), CLOSE];
      IdStarts(r, p, id, rest);
      DataNamed(r, p.(at := Entity5), notation);
      DefinedAt(p, Unparsed);
  }

  lemma {:induction false} DefinedAt(p: Prolog, e: Entity)
    ensures forall h :: DefineEntity(p.(at := h), e) == DefineEntity(p, e).(at := h)
  {
  }

  lemma {:induction false} DataCloses(r: Reader, p: Prolog)
    requires p.at == Entity5
    ensures After(r, p, [CLOSE]) == Some(p.(at := Subset))
  {
    hide TokenRole; hide After; hide CLOSE;
    CloseIs();
    DataRoles(">");
    Passes(r, p, CLOSE, Subset, NoRole, []);
    OneMore(r, p.(at := Subset), CLOSE, []);
    assert [CLOSE] + [] == [CLOSE];
  }

  lemma {:induction false} DataNamed(r: Reader, p: Prolog, notation: string)
    requires p.at == Entity5
    ensures After(r, p, [Word("NDATA"), Word(notation), CLOSE]) == Some(DefineEntity(p, Unparsed).(at := Subset))
  {
    hide TokenRole; hide After; hide CLOSE; hide Word; hide DefineEntity;
    WordIs("NDATA");
    WordIs(notation);
    DataRoles(notation);
    assert [Word("NDATA"), Word(notation), CLOSE] == [Word("NDATA")] + ([Word(notation)] + [CLOSE]);
    Passes(r, p, Word("NDATA"), Entity6, NoRole, [Word(notation)] + [CLOSE]);
    Goes(r, p.(at := Entity6), Word(notation), DeclEnd, EntityNotationName, [CLOSE]);
    DefinedAt(p, Unparsed);
    Closes(r, DefineEntity(p.(at := DeclEnd), Unparsed));
  }

  lemma {:induction false} NamedThen(p: Prolog, name: string, e: Entity)
    ensures var q := NameEntity(p, name);
            && DefineEntity(q, e).dtd == WithEntity(p.dtd, name, e) && DefineEntity(q, e).decl.hadExternalDoctype == p.decl.hadExternalDoctype
            && q.dtd == WithEntity(p.dtd, name, External) && q.at == p.at && q.decl.hadExternalDoctype == p.decl.hadExternalDoctype
  {
    hide FIVE; hide PredefinedEntityName;
    FiveAre(name);
    var was := p.dtd.entities;
    assert was[name := External][name := e] == was[name := e];
  }

  lemma {:induction false} GeneralMeans(r: Reader, p: Prolog, name: string, def: EntityDef)
    requires Utf8(r.enc) && r.enc.byteType('\r') == CR && p.at == Subset && LegalDef(r.enc, def)
    ensures Gives(r, p, Tokens(General(name, def)), DtdAfter(r.internal, p.dtd, General(name, def)))
  {
    hide TokenRole; hide After; hide Utf8; hide LegalDef; hide Act; hide DefTokens; hide NameEntity; hide DefineEntity; hide WithEntity; hide Word; hide Open;
    var rest := DefTokens(def);
    assert Tokens(General(name, def)) == [Open("<!ENTITY")] + ([Word(name)] + rest);
    OpenRoles();
    EntityNameRoles(name);
    WordIs(name);
    Opens(r, p, "<!ENTITY", Entity0, [Word(name)] + rest);
    Goes(r, p.(at := Entity0), Word(name), Entity2, GeneralEntityName, rest);
    ActNames(r, p.(at := Entity2), name);
    var q := NameEntity(p.(at := Entity2), name);
    NamedThen(p.(at := Entity2), name, External);
    DefTaken(r, q, def);
    if EntityOf(def).Some? { NamedThen(p.(at := Entity2), name, EntityOf(def).value); }
  }

  lemma {:induction false} ActNames(r: Reader, p: Prolog, name: string)
    ensures Act(r, p, GeneralEntityName, name) == Continue(NameEntity(p, name)) && Act(r, p, ParamEntityName, name) == Continue(p.(decl := p.decl.(entity := None)))
  {
    hide NameEntity;
  }

  lemma {:induction false} ParameterMeans(r: Reader, p: Prolog, name: string, def: EntityDef)
    requires Utf8(r.enc) && r.enc.byteType('\r') == CR && p.at == Subset && LegalDef(r.enc, def) && !def.Data?
    ensures Gives(r, p, Tokens(Parameter(name, def)), DtdAfter(r.internal, p.dtd, Parameter(name, def)))
  {
    hide TokenRole; hide After; hide Utf8; hide LegalDef; hide Act; hide DefTokens; hide DefineEntity; hide Word; hide Open;
    var rest := DefTokens(def);
    var percent := XmlRole.Lexeme(Percent, "%");
    assert Tokens(Parameter(name, def)) == [Open("<!ENTITY")] + ([percent] + ([Word(name)] + rest));
    OpenRoles();
    EntityNameRoles(name);
    EntityNameRoles("%");
    WordIs(name);
    Opens(r, p, "<!ENTITY", Entity0, [percent] + ([Word(name)] + rest));
    Passes(r, p.(at := Entity0), percent, Entity1, NoRole, [Word(name)] + rest);
    Goes(r, p.(at := Entity1), Word(name), Entity7, ParamEntityName, rest);
    ActNames(r, p.(at := Entity7), name);
    var q := p.(at := Entity7, decl := p.decl.(entity := None));
    DefTaken(r, q, def);
    if EntityOf(def).Some? { NothingNamed(q, EntityOf(def).value); }
  }

  lemma {:induction false} NothingNamed(p: Prolog, e: Entity)
    requires p.decl.entity == None
    ensures DefineEntity(p, e) == p
  {
  }

  // ---- Attributes ----

  lemma {:induction false} DefaultActs(r: Reader, p: Prolog, role: Role, value: seq<Piece>)
    requires Utf8(r.enc) && LegalPieces(r.enc, value, '<') && Whole(r.internal, p.dtd) && (role == DefaultValue || role == FixedValue)
    ensures Act(r, p, role, Quoted(PrintPieces(value))) ==
            match Meaning(r.internal, p.dtd, {}, value)
            case ValueError(code) => Refuse(code)
            case Value(text) => Continue(DefineAttribute(p, Typed(p.decl.isCdata, text), true))
  {
    hide StoreValue; hide Utf8; hide LegalPieces; hide PrintPieces; hide Meaning; hide Typed; hide Quoted; hide DefineAttribute; hide Inner; hide Whole;
    QuotedInner(PrintPieces(value));
    LiteralStored(r.internal, p.dtd, {}, r.enc, p.decl.isCdata, value);
  }

  lemma {:induction false} DefinedAtt(p: Prolog, value: string, hasValue: bool)
    ensures var q := DefineAttribute(p, value, hasValue);
            && q.dtd == WithAtt(p.dtd, p.decl.elementType, DefaultAtt(p.decl.attribute, p.decl.isCdata, value, hasValue))
            && q.at == p.at && q.decl == p.decl && q.dtd.entities == p.dtd.entities
  {
  }

  lemma {:induction false} SameEntities(internal: Encoding, a: Dtd, b: Dtd)
    requires a.entities == b.entities && Whole(internal, a)
    ensures Whole(internal, b)
  {
    hide AllSolid;
  }

  /** Behind the type: the state after the default, if that is in order. */
  lemma {:induction false} DefaultTaken(r: Reader, p: Prolog, d: AttDefault, rest: Lexemes)
    requires Ready(r, p.dtd) && p.at == Attlist8
    requires match d case Fixed(value) => LegalPieces(r.enc, value, '<') case Given(value) => LegalPieces(r.enc, value, '<') case _ => true
    ensures var kind := if p.decl.isCdata then CdataType else Keyword("");
            match WithDef(r.internal, p.dtd, p.decl.elementType, AttDef(p.decl.attribute, kind, d))
            case None => After(r, p, DefaultTokens(d) + rest) == None
            case Some(dtd) => After(r, p, DefaultTokens(d) + rest) == After(r, p.(at := Attlist1, dtd := dtd), rest) && Whole(r.internal, dtd)
  {
    hide TokenRole; hide After; hide Utf8; hide LegalPieces; hide Act; hide Quoted; hide Lit; hide PrintPieces; hide Whole; hide Meaning; hide Typed; hide WithAtt; hide DefineAttribute;
    var q := p.(at := Attlist1);
    match d
    case Implied =>
      DefaultRoles("");
      Goes(r, p, XmlRole.Lexeme(PoundName, "#IMPLIED"), Attlist1, ImpliedValue, rest);
      NoValueActs(r, q, ImpliedValue, "#IMPLIED");
      DefinedAtt(q, "", false);
      DefinedOnly(q, "", false);
      SameEntities(r.internal, p.dtd, DefineAttribute(q, "", false).dtd);
    case Required =>
      DefaultRoles("");
      Goes(r, p, XmlRole.Lexeme(PoundName, "#REQUIRED"), Attlist1, RequiredValue, rest);
      NoValueActs(r, q, RequiredValue, "#REQUIRED");
      DefinedAtt(q, "", false);
      DefinedOnly(q, "", false);
      SameEntities(r.internal, p.dtd, DefineAttribute(q, "", false).dtd);
    case Fixed(value) =>
      var v := PrintPieces(value);
      DefaultRoles(Quoted(v));
      WordIs(v);
      assert DefaultTokens(d) + rest == [XmlRole.Lexeme(PoundName, "#FIXED")] + ([Lit(v)] + rest);
      Passes(r, p, XmlRole.Lexeme(PoundName, "#FIXED"), Attlist9, NoRole, [Lit(v)] + rest);
      Goes(r, p.(at := Attlist9), Lit(v), Attlist1, FixedValue, rest);
      ValueTaken(r, q, FixedValue, value);
    case Given(value) =>
      var v := PrintPieces(value);
      DefaultRoles(Quoted(v));
      WordIs(v);
      Goes(r, p, Lit(v), Attlist1, DefaultValue, rest);
      ValueTaken(r, q, DefaultValue, value);
  }

  lemma {:induction false} NoValueActs(r: Reader, p: Prolog, role: Role, text: string)
    requires role == ImpliedValue || role == RequiredValue
    ensures Act(r, p, role, text) == Continue(DefineAttribute(p, "", false))
  {
    hide DefineAttribute;
  }

  lemma {:induction false} ValueTaken(r: Reader, p: Prolog, role: Role, value: seq<Piece>)
    requires Ready(r, p.dtd) && LegalPieces(r.enc, value, '<') && (role == DefaultValue || role == FixedValue)
    ensures var a := Act(r, p, role, Quoted(PrintPieces(value)));
            match WithValue(r.internal, p.dtd, p.decl.elementType, p.decl.attribute, p.decl.isCdata, value)
            case None => a.Refuse?
            case Some(dtd) => a == Continue(p.(dtd := dtd)) && Whole(r.internal, dtd)
  {
    hide Utf8; hide LegalPieces; hide Act; hide Quoted; hide PrintPieces; hide Whole; hide Meaning; hide Typed; hide WithAtt; hide DefineAttribute;
    DefaultActs(r, p, role, value);
    var m := Meaning(r.internal, p.dtd, {}, value);
    if m.Value? {
      var text := Typed(p.decl.isCdata, m.text);
      DefinedAtt(p, text, true);
      DefinedOnly(p, text, true);
      SameEntities(r.internal, p.dtd, DefineAttribute(p, text, true).dtd);
    }
  }

  lemma {:induction false} DefinedOnly(p: Prolog, value: string, hasValue: bool)
    ensures DefineAttribute(p, value, hasValue) == p.(dtd := DefineAttribute(p, value, hasValue).dtd)
  {
  }

  lemma {:induction false} TypeTaken(r: Reader, p: Prolog, t: AttType, rest: Lexemes)
    requires p.at == Attlist2 && !p.decl.isCdata && TypeFits(t)
    ensures After(r, p, TypeTokens(t) + rest) == After(r, p.(at := Attlist8, decl := p.decl.(isCdata := t.CdataType?)), rest)
  {
    hide TokenRole; hide After; hide Act; hide Word; hide KEYWORDS; hide Listed; hide ChoiceTokens; hide NameTokens;
    SameDecl(p);
    match t
    case CdataType =>
      TypeRoles("");
      WordIs("CDATA");
      Goes(r, p, Word("CDATA"), Attlist8, AttributeTypeCdata, rest);
      CdataActs(r, p.(at := Attlist8), "CDATA");
    case Keyword(word) =>
      WordIs(word);
      KeywordRole(word);
      Passes(r, p, Word(word), Attlist8, AttributeTypeOther, rest);
    case Choice(tokens) => ChoiceTypeTaken(r, p, tokens, rest);
    case Notations(names) => NotationTypeTaken(r, p, names, rest);
  }

  lemma {:induction false} SameDecl(p: Prolog)
    requires !p.decl.isCdata
    ensures p.decl.(isCdata := false) == p.decl
  {
  }

  lemma {:induction false} ChoiceTypeTaken(r: Reader, p: Prolog, tokens: seq<(bool, string)>, rest: Lexemes)
    requires p.at == Attlist2 && tokens != []
    ensures After(r, p, TypeTokens(Choice(tokens)) + rest) == After(r, p.(at := Attlist8), rest)
  {
    hide TokenRole; hide After; hide Act; hide Listed; hide ChoiceTokens;
    var close, open := XmlRole.Lexeme(CloseParen, ")"), XmlRole.Lexeme(OpenParen, "(");
    var l := Listed(ChoiceTokens(tokens));
    TypeRoles("(");
    assert TypeTokens(Choice(tokens)) == [open] + l + [close];
    assert [open] + l + [close] + rest == [open] + (l + ([close] + rest));
    Passes(r, p, open, Attlist3, NoRole, l + ([close] + rest));
    ChoiceTaken(r, p.(at := Attlist3), tokens, rest);
  }

  lemma {:induction false} NotationTypeTaken(r: Reader, p: Prolog, names: seq<string>, rest: Lexemes)
    requires p.at == Attlist2 && names != []
    ensures After(r, p, TypeTokens(Notations(names)) + rest) == After(r, p.(at := Attlist8), rest)
  {
    hide TokenRole; hide After; hide Act; hide Word; hide Listed; hide NameTokens;
    var close, open := XmlRole.Lexeme(CloseParen, ")"), XmlRole.Lexeme(OpenParen, "(");
    var l := Listed(NameTokens(names));
    TypeRoles("");
    WordIs("NOTATION");
    NotationTypeRoles("(");
    assert TypeTokens(Notations(names)) == [Word("NOTATION"), open] + l + [close];
    assert [Word("NOTATION"), open] + l + [close] + rest == [Word("NOTATION")] + ([open] + (l + ([close] + rest)));
    Passes(r, p, Word("NOTATION"), Attlist5, NoRole, [open] + (l + ([close] + rest)));
    Passes(r, p.(at := Attlist5), open, Attlist6, NoRole, l + ([close] + rest));
    NotationsTaken(r, p.(at := Attlist6), names, rest);
  }

  lemma {:induction false} CdataActs(r: Reader, p: Prolog, text: string)
    ensures Act(r, p, AttributeTypeCdata, text) == Continue(p.(decl := p.decl.(isCdata := true)))
  {
  }

  lemma {:induction false} ListedFirst(l: Lexemes, rest: Lexemes)
    requires l != []
    ensures Listed(l) + rest == if |l| == 1 then [l[0]] + rest else [l[0]] + ([XmlRole.Lexeme(Or, "|")] + (Listed(l[1..]) + rest))
  {
  }

  lemma {:induction false} ChoiceFirst(l: seq<(bool, string)>)
    requires l != []
    ensures ChoiceTokens(l)[0] == TokenOf(l[0]) && ChoiceTokens(l)[1..] == ChoiceTokens(l[1..])
  {
  }

  lemma {:induction false} NamesFirst(l: seq<string>)
    requires l != []
    ensures NameTokens(l)[0] == Word(l[0]) && NameTokens(l)[1..] == NameTokens(l[1..])
  {
  }

  /** The values of an enumeration. */
  lemma {:induction false} ChoiceTaken(r: Reader, p: Prolog, l: seq<(bool, string)>, rest: Lexemes)
    requires p.at == Attlist3 && l != []
    ensures After(r, p, Listed(ChoiceTokens(l)) + ([XmlRole.Lexeme(CloseParen, ")")] + rest)) == After(r, p.(at := Attlist8), rest)
    decreases |l|
  {
    hide TokenRole; hide After; hide Listed; hide ChoiceTokens;
    var close, or := XmlRole.Lexeme(CloseParen, ")"), XmlRole.Lexeme(Or, "|");
    var behind := [close] + rest;
    ListedFirst(ChoiceTokens(l), behind);
    ChoiceFirst(l);
    ChoiceRoles(l[0].1);
    ChoiceRoles(")");
    ChoiceRoles("|");
    var p' := p.(at := Attlist4);
    if |l| == 1 {
      Passes(r, p, TokenOf(l[0]), Attlist4, AttributeEnumValue, behind);
      Passes(r, p', close, Attlist8, NoRole, rest);
    } else {
      var more := Listed(ChoiceTokens(l[1..])) + behind;
      Passes(r, p, TokenOf(l[0]), Attlist4, AttributeEnumValue, [or] + more);
      Passes(r, p', or, Attlist3, NoRole, more);
      ChoiceTaken(r, p, l[1..], rest);
      assert p'.(at := Attlist3) == p;
    }
  }

  lemma {:induction false} NotationsTaken(r: Reader, p: Prolog, l: seq<string>, rest: Lexemes)
    requires p.at == Attlist6 && l != []
    ensures After(r, p, Listed(NameTokens(l)) + ([XmlRole.Lexeme(CloseParen, ")")] + rest)) == After(r, p.(at := Attlist8), rest)
    decreases |l|
  {
    hide TokenRole; hide After; hide Listed; hide NameTokens;
    var close, or := XmlRole.Lexeme(CloseParen, ")"), XmlRole.Lexeme(Or, "|");
    var behind := [close] + rest;
    ListedFirst(NameTokens(l), behind);
    NamesFirst(l);
    NotationTypeRoles(l[0]);
    NotationTypeRoles(")");
    NotationTypeRoles("|");
    WordIs(l[0]);
    var p' := p.(at := Attlist7);
    if |l| == 1 {
      Passes(r, p, Word(l[0]), Attlist7, AttributeNotationValue, behind);
      Passes(r, p', close, Attlist8, NoRole, rest);
    } else {
      var more := Listed(NameTokens(l[1..])) + behind;
      Passes(r, p, Word(l[0]), Attlist7, AttributeNotationValue, [or] + more);
      Passes(r, p', or, Attlist6, NoRole, more);
      NotationsTaken(r, p, l[1..], rest);
      assert p'.(at := Attlist6) == p;
    }
  }

  lemma {:induction false} AttNamed(r: Reader, p: Prolog, text: string)
    ensures Act(r, p, AttributeName, text) == Continue(p.(decl := p.decl.(attribute := text, isCdata := false)))
    ensures Act(r, p, AttlistElementName, text) == Continue(p.(decl := p.decl.(elementType := text)))
  {
  }

  /** One attribute definition. */
  lemma {:induction false} AttTaken(r: Reader, p: Prolog, d: AttDef, rest: Lexemes)
    requires Ready(r, p.dtd) && p.at == Attlist1 && LegalAtt(r.enc, d)
    ensures match WithDef(r.internal, p.dtd, p.decl.elementType, d)
            case None => After(r, p, AttTokens(d) + rest) == None
            case Some(dtd) => Whole(r.internal, dtd) && After(r, p, AttTokens(d) + rest) ==
                              After(r, p.(dtd := dtd, decl := p.decl.(attribute := d.name, isCdata := d.kind.CdataType?)), rest)
  {
    hide TokenRole; hide After; hide Act; hide Word; hide TypeTokens; hide DefaultTokens; hide LegalPieces; hide Utf8; hide Whole; hide WithAtt; hide WithValue;
    var type_, default_ := TypeTokens(d.kind), DefaultTokens(d.default_);
    assert AttTokens(d) + rest == [Word(d.name)] + (type_ + (default_ + rest));
    WordIs(d.name);
    AttNameRoles(d.name);
    Goes(r, p, Word(d.name), Attlist2, AttributeName, type_ + (default_ + rest));
    AttNamed(r, p.(at := Attlist2), d.name);
    var q := p.(at := Attlist2, decl := p.decl.(attribute := d.name, isCdata := false));
    TypeTaken(r, q, d.kind, default_ + rest);
    var u := q.(at := Attlist8, decl := q.decl.(isCdata := d.kind.CdataType?));
    DefaultTaken(r, u, d.default_, rest);
    OnlyCdata(r.internal, p.dtd, p.decl.elementType, d, if d.kind.CdataType? then CdataType else Keyword(""));
  }

  /** Of the type, only whether it is CDATA matters. */
  lemma {:induction false} OnlyCdata(internal: Encoding, dtd: Dtd, element: string, d: AttDef, kind: AttType)
    requires kind.CdataType? == d.kind.CdataType?
    ensures WithDef(internal, dtd, element, AttDef(d.name, kind, d.default_)) == WithDef(internal, dtd, element, d)
  {
    hide WithAtt; hide WithValue;
  }

  lemma {:induction false} AttsTaken(r: Reader, p: Prolog, l: seq<AttDef>)
    requires Ready(r, p.dtd) && p.at == Attlist1 && AllFit(l) && forall i :: 0 <= i < |l| ==> LegalAtt(r.enc, l[i])
    ensures Gives(r, p, AttsTokens(l), WithDefs(r.internal, p.dtd, p.decl.elementType, l))
    decreases |l|
  {
    hide TokenRole; hide After; hide AttTokens; hide LegalAtt; hide Ready; hide WithDef; hide CLOSE;
    if l == [] {
      CloseIs();
      AttNameRoles(">");
      Passes(r, p, CLOSE, Subset, NoRole, []);
      OneMore(r, p.(at := Subset), CLOSE, []);
      assert [CLOSE] + [] == [CLOSE];
    } else {
      AttTaken(r, p, l[0], AttsTokens(l[1..]));
      var w := WithDef(r.internal, p.dtd, p.decl.elementType, l[0]);
      if w.Some? {
        StillReady(r, p.dtd, w.value);
        AttsTaken(r, p.(dtd := w.value, decl := p.decl.(attribute := l[0].name, isCdata := l[0].kind.CdataType?)), l[1..]);
      }
    }
  }

  lemma {:induction false} StillReady(r: Reader, dtd: Dtd, dtd': Dtd)
    requires Ready(r, dtd) && Whole(r.internal, dtd')
    ensures Ready(r, dtd')
  {
  }

  lemma {:induction false} AttributesMean(r: Reader, p: Prolog, element: string, defs: seq<AttDef>)
    requires Ready(r, p.dtd) && p.at == Subset && LegalDeclaration(r.enc, Attributes(element, defs))
    ensures AllFit(defs) && Gives(r, p, Tokens(Attributes(element, defs)), DtdAfter(r.internal, p.dtd, Attributes(element, defs)))
  {
    hide TokenRole; hide After; hide AttsTokens; hide Ready; hide Word; hide Open; hide Act; hide LegalPieces; hide WithDefs;
    assert AllFit(defs);
    var rest := AttsTokens(defs);
    assert Tokens(Attributes(element, defs)) == [Open("<!ATTLIST")] + ([Word(element)] + rest);
    OpenRoles();
    AttNameRoles(element);
    WordIs(element);
    Opens(r, p, "<!ATTLIST", Attlist0, [Word(element)] + rest);
    Goes(r, p.(at := Attlist0), Word(element), Attlist1, AttlistElementName, rest);
    AttNamed(r, p.(at := Attlist1), element);
    AttsTaken(r, p.(at := Attlist1, decl := p.decl.(elementType := element)), defs);
  }

  // ---- Other declarations ----

  lemma {:induction false} NotationMeans(r: Reader, p: Prolog, name: string, public: Option<string>, system: Option<string>)
    requires Utf8(r.enc) && r.enc.byteType('\r') == CR && p.at == Subset && (public.Some? || system.Some?)
    ensures Gives(r, p, Tokens(Notation(name, public, system)), DtdAfter(r.internal, p.dtd, Notation(name, public, system)))
  {
    hide TokenRole; hide After; hide Utf8; hide Act; hide Word; hide Open; hide NotationTokens; hide LegalPublic;
    var rest := NotationTokens(public, system);
    assert Tokens(Notation(name, public, system)) == [Open("<!NOTATION")] + ([Word(name)] + rest);
    OpenRoles();
    NotationRoles(name);
    WordIs(name);
    Opens(r, p, "<!NOTATION", Notation0, [Word(name)] + rest);
    Passes(r, p.(at := Notation0), Word(name), Notation1, NotationName, rest);
    NotationIdTaken(r, p.(at := Notation1), public, system);
  }

  lemma {:induction false} NotationIdTaken(r: Reader, p: Prolog, public: Option<string>, system: Option<string>)
    requires Utf8(r.enc) && r.enc.byteType('\r') == CR && p.at == Notation1 && (public.Some? || system.Some?)
    ensures After(r, p, NotationTokens(public, system)) == if public.Some? ==> LegalPublic(public.value) then Some(p.(at := Subset)) else None
  {
    hide TokenRole; hide After; hide Utf8; hide Act; hide Word; hide Lit; hide LegalPublic; hide Quoted; hide CLOSE;
    NotationRoles("");
    if public.Some? {
      var v := public.value;
      var rest := (if system.Some? then [Lit(system.value)] else []) + [CLOSE];
      assert NotationTokens(public, system) == [Word("PUBLIC")] + ([Lit(v)] + rest);
      WordIs("PUBLIC");
      WordIs(v);
      NotationIdRoles(Quoted(v));
      Passes(r, p, Word("PUBLIC"), Notation2, NoRole, [Lit(v)] + rest);
      Goes(r, p.(at := Notation2), Lit(v), Notation4, NotationPublicId, rest);
      PublicActs(r, p.(at := Notation4), NotationPublicId, v);
      NotationEnds(r, p.(at := Notation4), system);
    } else {
      var s := system.value;
      assert NotationTokens(public, system) == [Word("SYSTEM")] + ([Lit(s)] + [CLOSE]);
      WordIs("SYSTEM");
      WordIs(s);
      NotationIdRoles(Quoted(s));
      Passes(r, p, Word("SYSTEM"), Notation3, NoRole, [Lit(s)] + [CLOSE]);
      Passes(r, p.(at := Notation3), Lit(s), DeclEnd, NotationSystemId, [CLOSE]);
      Closes(r, p.(at := DeclEnd));
    }
  }

  lemma {:induction false} NotationEnds(r: Reader, p: Prolog, system: Option<string>)
    requires p.at == Notation4
    ensures After(r, p, (if system.Some? then [Lit(system.value)] else []) + [CLOSE]) == Some(p.(at := Subset))
  {
    hide TokenRole; hide After; hide Lit; hide CLOSE; hide Quoted;
    if system.Some? {
      WordIs(system.value);
      NotationIdRoles(Quoted(system.value));
      Passes(r, p, Lit(system.value), DeclEnd, NotationSystemId, [CLOSE]);
      Closes(r, p.(at := DeclEnd));
    } else {
      CloseIs();
      NotationIdRoles(">");
      Passes(r, p, CLOSE, Subset, NotationNoSystemId, []);
      OneMore(r, p.(at := Subset), CLOSE, []);
      assert [] + [CLOSE] == [CLOSE] + [];
    }
  }

  lemma {:induction false} AsideMeans(r: Reader, p: Prolog, tok: Token, text: string)
    requires p.at == Subset && (tok == Pi || tok == Comment)
    ensures Gives(r, p, Tokens(Aside(tok, text)), DtdAfter(r.internal, p.dtd, Aside(tok, text)))
  {
    hide TokenRole; hide After;
    var x := XmlRole.Lexeme(tok, text);
    SubsetRoles(text);
    Passes(r, p, x, Subset, NoRole, []);
    OneMore(r, p, x, []);
    assert [x] + [] == [x];
  }

  lemma {:induction false} ParameterReferenceMeans(r: Reader, p: Prolog, text: string)
    requires p.at == Subset
    ensures Gives(r, p, Tokens(ParameterReference(text)), DtdAfter(r.internal, p.dtd, ParameterReference(text)))
  {
    hide TokenRole; hide After;
    var x := XmlRole.Lexeme(ParamEntityRef, text);
    SubsetRoles(text);
    Goes(r, p, x, Subset, ParamEntityReferenced, []);
    OneMore(r, p.(dtd := p.dtd.(complete := false)), x, []);
    assert [x] + [] == [x];
  }

  // ---- Element types ----

  lemma {:induction false} NoErrorHandler(st: XmlRole.DeclState, t: XmlRole.Lexeme)
    requires st.Valid() && st.handler != XmlRole.ErrorHandler
    ensures XmlRole.Move(st, t).Some? ==> XmlRole.Move(st, t).value.handler != XmlRole.ErrorHandler
  {
    hide XmlRole.WithConnector;
    ConnectorKeeps(st);
  }

  lemma {:induction false} ConnectorKeeps(st: XmlRole.DeclState)
    ensures st.open != [] ==> forall h, c :: XmlRole.WithConnector(st, h, c).Some? ==> XmlRole.WithConnector(st, h, c).value.handler == h
  {
  }

  /** What the automaton of element type declarations accepts brings the parser back to the subset. */
  lemma {:induction false} ElementAfter(r: Reader, p: Prolog, l: Lexemes)
    requires p.at.InElement? && p.at.handler != XmlRole.InternalSubset && p.at.handler != XmlRole.ErrorHandler
    requires XmlRole.DeclState(p.at.handler, p.open).Valid() && XmlRole.Accepts(XmlRole.DeclState(p.at.handler, p.open), l)
    ensures After(r, p, l).Some? && At(p, After(r, p, l).value, p.dtd)
    decreases |l|
  {
    hide XmlRole.Move; hide XmlRole.Accepts; hide After;
    var st := XmlRole.DeclState(p.at.handler, p.open);
    XmlRole.FirstStep(st, l);
    var st' := XmlRole.Move(st, l[0]).value;
    NoErrorHandler(st, l[0]);
    assert l == [l[0]] + l[1..];
    OneMore(r, p, l[0], l[1..]);
    var q := p.(at := if st'.handler == XmlRole.InternalSubset then Subset else InElement(st'.handler), open := st'.open);
    assert Turn(r, p, l[0].tok, l[0].text) == Continue(q) by { assert XmlRole.Lexeme(l[0].tok, l[0].text) == l[0]; }
    if st'.handler == XmlRole.InternalSubset {
      XmlRole.NothingBehind(st'.open, l[1..]);
      OneMore(r, q, l[0], []);
    } else {
      ElementAfter(r, q, l[1..]);
    }
  }

  lemma {:induction false} ElementMeans(r: Reader, p: Prolog, name: string, spec: XmlRole.ContentSpec, model: Lexemes)
    requires p.at == Subset && LegalDeclaration(r.enc, ElementType(name, spec, model))
    ensures Gives(r, p, Tokens(ElementType(name, spec, model)), DtdAfter(r.internal, p.dtd, ElementType(name, spec, model)))
  {
    hide TokenRole; hide After; hide XmlRole.Move; hide XmlRole.Accepts; hide XmlRole.IsContentSpec; hide Word; hide Open; hide CLOSE; hide XmlRole.NoSpace;
    var rest := model + [CLOSE];
    assert Tokens(ElementType(name, spec, model)) == [Open("<!ELEMENT")] + ([Word(name)] + rest);
    OpenRoles();
    Opens(r, p, "<!ELEMENT", InElement(XmlRole.Element0), [Word(name)] + rest);
    WordIs(name);
    CloseIs();
    NoSpaceSame(model);
    XmlRole.AcceptsExactlyContentSpecs(p.open, model, CLOSE);
    NameAccepted(p.open, name, rest);
    ElementAfter(r, p.(at := InElement(XmlRole.Element0)), [Word(name)] + rest);
  }

  lemma {:induction false} NoSpaceSame(l: Lexemes)
    requires forall i :: 0 <= i < |l| ==> l[i].tok != PrologS
    ensures XmlRole.NoSpace(l) == l
    decreases |l|
  {
    if l != [] {
      NoSpaceSame(l[1..]);
      assert l == [l[0]] + l[1..];
    }
  }

  lemma {:induction false} NameAccepted(open: seq<XmlRole.Connector>, name: string, rest: Lexemes)
    requires XmlRole.Accepts(XmlRole.DeclState(XmlRole.Element1, open), rest)
    ensures XmlRole.Accepts(XmlRole.DeclState(XmlRole.Element0, open), [Word(name)] + rest)
  {
    hide XmlRole.Accepts;
    XmlRole.AcceptsStep(XmlRole.DeclState(XmlRole.Element0, open), Word(name), rest);
  }

  // ---- Any declarations ----

  /** One declaration. */
  lemma {:induction false} DeclarationMeans(r: Reader, p: Prolog, d: Declaration)
    requires Ready(r, p.dtd) && p.at == Subset && LegalDeclaration(r.enc, d)
    ensures d.Attributes? ==> AllFit(d.defs)
    ensures Gives(r, p, Tokens(d), DtdAfter(r.internal, p.dtd, d))
  {
    hide Gives; hide Tokens; hide DtdAfter; hide LegalDef; hide XmlRole.IsContentSpec; hide LegalAtt; hide Whole; hide Utf8;
    match d
    case General(name, def) => GeneralMeans(r, p, name, def);
    case Parameter(name, def) => ParameterMeans(r, p, name, def);
    case Attributes(element, defs) => AttributesMean(r, p, element, defs);
    case ElementType(name, spec, model) => ElementMeans(r, p, name, spec, model);
    case Notation(name, public, system) => NotationMeans(r, p, name, public, system);
    case Aside(tok, text) => AsideMeans(r, p, tok, text);
    case ParameterReference(text) => ParameterReferenceMeans(r, p, text);
  }

  /** The DTD goes on being one of well-formed text. */
  lemma {:induction false} StaysReady(r: Reader, dtd: Dtd, d: Declaration)
    requires Ready(r, dtd) && LegalDeclaration(r.enc, d)
    ensures DtdAfter(r.internal, dtd, d).Some? ==> Ready(r, DtdAfter(r.internal, dtd, d).value)
  {
    hide Utf8; hide LegalPieces; hide Replacement; hide AllSolid; hide XmlRole.IsContentSpec; hide WithDefs; hide AllChars; hide LegalPublic; hide FIVE;
    match d
    case General(name, def) =>
      if def.Literally? && AllChars(def.value) { ReplacementSolid(r.enc, r.internal, def.value, '%'); }
    case Attributes(element, defs) => DefsKeep(r.internal, dtd, element, defs);
    case _ =>
  }

  lemma {:induction false} DefsKeep(internal: Encoding, dtd: Dtd, element: string, l: seq<AttDef>)
    ensures WithDefs(internal, dtd, element, l).Some? ==> WithDefs(internal, dtd, element, l).value.entities == dtd.entities
    decreases |l|
  {
    hide Meaning; hide Typed;
    if l != [] && WithDef(internal, dtd, element, l[0]).Some? { DefsKeep(internal, WithDef(internal, dtd, element, l[0]).value, element, l[1..]); }
  }

  ghost predicate AllLegal(enc: Encoding, l: seq<Declaration>) { forall i :: 0 <= i < |l| ==> LegalDeclaration(enc, l[i]) && (l[i].Attributes? ==> AllFit(l[i].defs)) }

  predicate Fitting(l: seq<Declaration>) { forall i :: 0 <= i < |l| && l[i].Attributes? ==> AllFit(l[i].defs) }

  function AllTokens(l: seq<Declaration>): Lexemes
    requires Fitting(l)
    decreases |l|
  {
    if l == [] then [] else Tokens(l[0]) + AllTokens(l[1..])
  }

  /** The DTD after some declarations. */
  function AllDeclared(internal: Encoding, dtd: Dtd, l: seq<Declaration>): Option<Dtd>
    decreases |l|
  {
    if l == [] then Some(dtd)
    else match DtdAfter(internal, dtd, l[0]) case None => None case Some(dtd') => AllDeclared(internal, dtd', l[1..])
  }

  /** Any declarations, one after the other. */
  lemma {:induction false} DeclarationsMean(r: Reader, p: Prolog, l: seq<Declaration>)
    requires Ready(r, p.dtd) && p.at == Subset && AllLegal(r.enc, l)
    ensures Fitting(l) && Gives(r, p, AllTokens(l), AllDeclared(r.internal, p.dtd, l))
    ensures AllDeclared(r.internal, p.dtd, l).Some? ==> Ready(r, AllDeclared(r.internal, p.dtd, l).value)
    decreases |l|
  {
    hide Ready; hide Tokens; hide DtdAfter; hide LegalDeclaration; hide After;
    if l == [] {
      OneMore(r, p, CLOSE, []);
    } else {
      DeclarationMeans(r, p, l[0]);
      StaysReady(r, p.dtd, l[0]);
      AfterBoth(r, p, Tokens(l[0]), AllTokens(l[1..]));
      if DtdAfter(r.internal, p.dtd, l[0]).Some? { DeclarationsMean(r, After(r, p, Tokens(l[0])).value, l[1..]); }
    }
  }
}
