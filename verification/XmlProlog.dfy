/**
 The prolog: the role automaton of libjabber/xmlrole.c and the actions of
 prologProcessor in libjabber/xmlparse.c, with storeEntityValue and the
 tokenizer of entity values from libjabber/xmltok_impl_c.h.

 What the other laws need of a prolog, `RoleLaws`, is proved of it here.
 */
module XmlProlog {
  import opened XmlScan
  import opened XmlTok
  import opened XmlValue
  import opened XmlContent
  import XmlRole

  // Entity values

  /** A run of data in an entity value. */
  function EntityValueRun(enc: Encoding, s: string, p: nat): (next: nat)
    requires p <= |s|
    ensures p <= next <= |s|
    decreases |s| - p
  {
    if p == |s| then p
    else
      var t := enc.byteType(s[p]);
      match t
      case LEAD2 | LEAD3 | LEAD4 => if |s| - p < LeadLength(t) then |s| else EntityValueRun(enc, s, p + LeadLength(t))
      case AMP | PERCNT | LF | CR => p
      case _ => EntityValueRun(enc, s, p + 1)
  }

  function EntityValueTok(enc: Encoding, w: string): (v: Verdict)
    ensures v.Tok? ==> 1 <= v.next <= |w|
    ensures v.TrailingCr? ==> |w| == 1
  {
    if w == "" then NoBytes
    else
      match enc.byteType(w[0])
      case AMP => Scan(enc, RefOpen(InContent), w, 1)
      case PERCNT => Scan(enc, PercentOpen, w, 1)
      case LF => Tok(DataNewline, 1)
      case CR => if |w| == 1 then TrailingCr else Tok(DataNewline, if enc.byteType(w[1]) == LF then 2 else 1)
      case _ => Tok(DataChars, EntityValueRun(enc, w, 0))
  }

  /** storeEntityValue: references to general entities stay, references to parameter entities are refused. */
  function EntityValue(enc: Encoding, w: string): ValueResult
    decreases |w|
  {
    match EntityValueTok(enc, w)
    case NoBytes => Value("")
    case Invalid(_) => ValueError(InvalidToken)
    case Partial => ValueError(InvalidToken)
    case TrailingCr => Before("\n", EntityValue(enc, w[1..]))
    case Tok(tok, next) =>
      if tok == ParamEntityRef then ValueError(Syntax)
      else if tok == DataNewline then Before("\n", EntityValue(enc, w[next..]))
      else if tok == EntityRef || tok == DataChars then Before(w[..next], EntityValue(enc, w[next..]))
      else if tok == CharRef then
        var n := CharRefNumber(w[..next]);
        if n < 0 || Utf8Encode(n) == "" then ValueError(BadCharRef) else Before(Utf8Encode(n), EntityValue(enc, w[next..]))
      else ValueError(Aborted)
    case _ => ValueError(Aborted)
  }

  function Before(s: string, r: ValueResult): ValueResult
  {
    match r case ValueError(code) => r case Value(text) => Value(s + text)
  }

  /** XmlIsPublicId, for a literal with its quotes. */
  predicate IsPublicId(enc: Encoding, literal: string)
  {
    var s := Inner(literal);
    forall i :: 0 <= i < |s| ==> PubidChar(enc, s[i])
  }

  predicate PubidChar(enc: Encoding, c: char) { PubidType(enc.byteType(c), c) }

  /** The switch of isPublicId. */
  predicate PubidType(t: ByteType, c: char)
  {
    match t
    case DIGIT | HEX | MINUS | APOS | LPAR | RPAR | PLUS | COMMA | SOL | EQUALS | QUEST | CR | LF | SEMI | EXCL | AST | PERCNT | NUM => true
    case S => c != '\t'
    case NAME | NMSTRT => c as int < 0x80 || c == '$' || c == '@'
    case _ => c == '$' || c == '@'
  }

  // The role automaton

  datatype Role =
    | NoRole | XmlDeclaration | InstanceStarts
    | DoctypeName | DoctypeSystemId | DoctypePublicId | DoctypeClose
    | GeneralEntityName | ParamEntityName | EntityText | EntitySystemId | EntityPublicId | EntityNotationName
    | NotationName | NotationSystemId | NotationNoSystemId | NotationPublicId
    | AttributeName | AttributeTypeCdata | AttributeTypeOther | AttributeEnumValue | AttributeNotationValue | AttlistElementName
    | ImpliedValue | RequiredValue | DefaultValue | FixedValue | ParamEntityReferenced

  /** XmlTokenRole outside of element type declarations: the next handler and the role, or a syntax error. */
  function TokenRole(h: PrologHandler, tok: Token, text: string): Option<(PrologHandler, Role)>
    requires !h.InElement?
  {
    if tok == PrologS then Some((if h == Prolog0 then Prolog1 else h, NoRole))
    else
      match h
      case Prolog0 =>
        if tok == XmlDecl then Some((Prolog1, XmlDeclaration)) else if tok == Pi || tok == Comment then Some((Prolog1, NoRole)) else InProlog(h, tok, text)
      case Prolog1 => if tok == Pi || tok == Comment then Some((h, NoRole)) else InProlog(h, tok, text)
      case Prolog2 =>
        if tok == Pi || tok == Comment then Some((h, NoRole)) else if tok == InstanceStart then Some((h, InstanceStarts)) else None
      case Doctype0 => if tok == Name then Some((Doctype1, DoctypeName)) else None
      case Doctype1 =>
        if tok == OpenBracket then Some((Subset, NoRole))
        else if tok == DeclClose then Some((Prolog2, DoctypeClose))
        else if tok == Name && text == "SYSTEM" then Some((Doctype3, NoRole))
        else if tok == Name && text == "PUBLIC" then Some((Doctype2, NoRole))
        else None
      case Doctype2 => if tok == Literal then Some((Doctype3, DoctypePublicId)) else None
      case Doctype3 => if tok == Literal then Some((Doctype4, DoctypeSystemId)) else None
      case Doctype4 =>
        if tok == OpenBracket then Some((Subset, NoRole)) else if tok == DeclClose then Some((Prolog2, DoctypeClose)) else None
      case Doctype5 => if tok == DeclClose then Some((Prolog2, DoctypeClose)) else None
      case Subset =>
        if tok == DeclOpen && text == "<!ENTITY" then Some((Entity0, NoRole))
        else if tok == DeclOpen && text == "<!ATTLIST" then Some((Attlist0, NoRole))
        else if tok == DeclOpen && text == "<!ELEMENT" then Some((InElement(XmlRole.Element0), NoRole))
        else if tok == DeclOpen && text == "<!NOTATION" then Some((Notation0, NoRole))
        else if tok == Pi || tok == Comment then Some((h, NoRole))
        else if tok == ParamEntityRef then Some((h, ParamEntityReferenced))
        else if tok == CloseBracket then Some((Doctype5, NoRole))
        else None
      case DeclEnd => if tok == DeclClose then Some((Subset, NoRole)) else None
      case Notation0 => if tok == Name then Some((Notation1, NotationName)) else None
      case Notation1 =>
        if tok == Name && text == "SYSTEM" then Some((Notation3, NoRole))
        else if tok == Name && text == "PUBLIC" then Some((Notation2, NoRole))
        else None
      case Notation2 => if tok == Literal then Some((Notation4, NotationPublicId)) else None
      case Notation3 => if tok == Literal then Some((DeclEnd, NotationSystemId)) else None
      case Notation4 =>
        if tok == Literal then Some((DeclEnd, NotationSystemId)) else if tok == DeclClose then Some((Subset, NotationNoSystemId)) else None
      case _ => if h.Entity0? || EntityPart(h) then InEntity(h, tok, text) else InAttlist(h, tok, text)
  }

  function InProlog(h: PrologHandler, tok: Token, text: string): Option<(PrologHandler, Role)>
  {
    if tok == DeclOpen && text == "<!DOCTYPE" then Some((Doctype0, NoRole)) else if tok == InstanceStart then Some((h, InstanceStarts)) else None
  }

  predicate EntityPart(h: PrologHandler)
  {
    h.Entity1? || h.Entity2? || h.Entity3? || h.Entity4? || h.Entity5? || h.Entity6? || h.Entity7? || h.Entity8? || h.Entity9?
  }

  function InEntity(h: PrologHandler, tok: Token, text: string): Option<(PrologHandler, Role)>
  {
    match h
    case Entity0 => if tok == Percent then Some((Entity1, NoRole)) else if tok == Name then Some((Entity2, GeneralEntityName)) else None
    case Entity1 => if tok == Name then Some((Entity7, ParamEntityName)) else None
    case Entity2 =>
      if tok == Name && text == "SYSTEM" then Some((Entity4, NoRole))
      else if tok == Name && text == "PUBLIC" then Some((Entity3, NoRole))
      else if tok == Literal then Some((DeclEnd, EntityText))
      else None
    case Entity3 => if tok == Literal then Some((Entity4, EntityPublicId)) else None
    case Entity4 => if tok == Literal then Some((Entity5, EntitySystemId)) else None
    case Entity5 =>
      if tok == DeclClose then Some((Subset, NoRole)) else if tok == Name && text == "NDATA" then Some((Entity6, NoRole)) else None
    case Entity6 => if tok == Name then Some((DeclEnd, EntityNotationName)) else None
    case Entity7 =>
      if tok == Name && text == "SYSTEM" then Some((Entity9, NoRole))
      else if tok == Name && text == "PUBLIC" then Some((Entity8, NoRole))
      else if tok == Literal then Some((DeclEnd, EntityText))
      else None
    case Entity8 => if tok == Literal then Some((Entity9, EntityPublicId)) else None
    case Entity9 => if tok == Literal then Some((DeclEnd, EntitySystemId)) else None
    case _ => None
  }

  const OTHER_TYPES: seq<string> := ["ID", "IDREF", "IDREFS", "ENTITY", "ENTITIES", "NMTOKEN", "NMTOKENS"]

  function InAttlist(h: PrologHandler, tok: Token, text: string): Option<(PrologHandler, Role)>
  {
    match h
    case Attlist0 => if tok == Name then Some((Attlist1, AttlistElementName)) else None
    case Attlist1 => if tok == DeclClose then Some((Subset, NoRole)) else if tok == Name then Some((Attlist2, AttributeName)) else None
    case Attlist2 =>
      if tok == Name && text == "CDATA" then Some((Attlist8, AttributeTypeCdata))
      else if tok == Name && text in OTHER_TYPES then Some((Attlist8, AttributeTypeOther))
      else if tok == Name && text == "NOTATION" then Some((Attlist5, NoRole))
      else if tok == OpenParen then Some((Attlist3, NoRole))
      else None
    case Attlist3 => if tok == Nmtoken || tok == Name then Some((Attlist4, AttributeEnumValue)) else None
    case Attlist4 => if tok == CloseParen then Some((Attlist8, NoRole)) else if tok == Or then Some((Attlist3, NoRole)) else None
    case Attlist5 => if tok == OpenParen then Some((Attlist6, NoRole)) else None
    case Attlist6 => if tok == Name then Some((Attlist7, AttributeNotationValue)) else None
    case Attlist7 => if tok == CloseParen then Some((Attlist8, NoRole)) else if tok == Or then Some((Attlist6, NoRole)) else None
    case Attlist8 =>
      if tok == PoundName && text == "#IMPLIED" then Some((Attlist1, ImpliedValue))
      else if tok == PoundName && text == "#REQUIRED" then Some((Attlist1, RequiredValue))
      else if tok == PoundName && text == "#FIXED" then Some((Attlist9, NoRole))
      else if tok == Literal then Some((Attlist1, DefaultValue))
      else None
    case Attlist9 => if tok == Literal then Some((Attlist1, FixedValue)) else None
    case _ => None
  }

  // The actions of prologProcessor

  /** What processXmlDecl makes of an XML declaration: an error, or whether it says standalone="yes". */
  datatype XmlDeclOutcome = XmlDeclError(code: Error) | XmlDeclRead(standalone: bool)

  /** The parts of a parser the prolog depends on. */
  datatype Reader = Reader(enc: Encoding, internal: Encoding, xmlDecl: string -> XmlDeclOutcome)

  /** defineAttribute: declarations are kept in order, and only while the whole DTD has been read. */
  function DefineAttribute(p: Prolog, value: string, hasValue: bool): Prolog
  {
    if !p.dtd.complete then p
    else
      var was := Defaults(p.dtd, p.decl.elementType);
      var att := DefaultAtt(p.decl.attribute, p.decl.isCdata, value, hasValue);
      p.(dtd := p.dtd.(elementAtts := p.dtd.elementAtts[p.decl.elementType := was + [att]]))
  }

  /** The entity that is being declared gets a value, if it is the one to be remembered. */
  function DefineEntity(p: Prolog, e: Entity): Prolog
  {
    if p.decl.entity == None then p else p.(dtd := p.dtd.(entities := p.dtd.entities[p.decl.entity.value := e]))
  }

  /** A general entity that is predefined, already declared, or declared behind something unread is not remembered. */
  function NameEntity(p: Prolog, name: string): Prolog
  {
    if PredefinedEntityName(name).Some? || !p.dtd.complete || name in p.dtd.entities then p.(decl := p.decl.(entity := None))
    else DefineEntity(p.(decl := p.decl.(entity := Some(name))), External)
  }

  function Act(r: Reader, p: Prolog, role: Role, text: string): RoleAction
  {
    match role
    case XmlDeclaration =>
      (match r.xmlDecl(text)
       case XmlDeclError(code) => Refuse(code)
       case XmlDeclRead(standalone) => Continue(p.(dtd := p.dtd.(standalone := p.dtd.standalone || standalone))))
    case InstanceStarts => StartInstance(if p.decl.hadExternalDoctype then p.(dtd := p.dtd.(complete := false)) else p)
    case DoctypeSystemId => Continue(p.(decl := p.decl.(hadExternalDoctype := true)))
    case DoctypePublicId | EntityPublicId | NotationPublicId => if IsPublicId(r.enc, text) then Continue(p) else Refuse(Syntax)
    case GeneralEntityName => Continue(NameEntity(p, text))
    case ParamEntityName => Continue(p.(decl := p.decl.(entity := None)))
    case EntityText =>
      (match EntityValue(r.enc, Inner(text))
       case ValueError(code) => Refuse(code)
       case Value(value) => Continue(DefineEntity(p, Internal(value))))
    case EntityNotationName => Continue(DefineEntity(p, Unparsed))
    case AttlistElementName => Continue(p.(decl := p.decl.(elementType := text)))
    case AttributeName => Continue(p.(decl := p.decl.(attribute := text, isCdata := false)))
    case AttributeTypeCdata => Continue(p.(decl := p.decl.(isCdata := true)))
    case ImpliedValue | RequiredValue => Continue(DefineAttribute(p, "", false))
    case DefaultValue | FixedValue =>
      (match StoreValue(r.internal, p.dtd, {}, r.enc, p.decl.isCdata, Inner(text))
       case ValueError(code) => Refuse(code)
       case Value(value) => Continue(DefineAttribute(p, value, true)))
    case ParamEntityReferenced => Continue(p.(dtd := p.dtd.(complete := false)))
    case NoRole | DoctypeName | DoctypeClose | EntitySystemId | NotationName | NotationSystemId | NotationNoSystemId
      | AttributeTypeOther | AttributeEnumValue | AttributeNotationValue => Continue(p)
  }

  /** One turn of the loop of prologProcessor. */
  function Turn(r: Reader, p: Prolog, tok: Token, text: string): RoleAction
  {
    if p.at.InElement? then
      var st := XmlRole.DeclState(p.at.handler, p.open);
      if !st.Valid() || st.handler == XmlRole.ErrorHandler then Refuse(Syntax)
      else match XmlRole.Move(st, XmlRole.Lexeme(tok, text))
        case None => Refuse(XmlRole.RefusedAs(tok))
        case Some(st') => Continue(p.(at := if st'.handler == XmlRole.InternalSubset then Subset else InElement(st'.handler), open := st'.open))
    else
      match TokenRole(p.at, tok, text)
      case None => Refuse(XmlRole.RefusedAs(tok))
      case Some((h, role)) => Act(r, p.(at := h), role, text)
  }

  /** The parser of the program. */
  function ReaderEnv(r: Reader): Env
  {
    Env(r.enc, r.internal, (p, tok, text) => Turn(r, p, tok, text))
  }

  // Its laws

  lemma {:induction false} RoleOfToken(h: PrologHandler, tok: Token, text: string)
    requires !h.InElement?
    ensures TokenRole(h, PrologS, text) == Some((if h == Prolog0 then Prolog1 else h, NoRole))
    ensures var a := TokenRole(h, tok, text); a.Some? ==> (a.value.1 == InstanceStarts <==> tok == InstanceStart)
  {
    hide InEntity; hide InAttlist; hide EntityPart;
    EntityRoles(h, tok, text);
    AttlistRoles(h, tok, text);
  }

  /** The roles that declarations of entities give, and where they go on. */
  lemma {:induction false} EntityRoles(h: PrologHandler, tok: Token, text: string)
    ensures var a := InEntity(h, tok, text);
            a.Some? ==>
              && a.value.1 != InstanceStarts && tok != InstanceStart
              && (EntityPart(a.value.0) && a.value.0 != Entity1 ==> a.value.1 == GeneralEntityName || a.value.1 == ParamEntityName || (EntityPart(h) && h != Entity1))
              && (a.value.1 == EntityText || a.value.1 == EntityNotationName ==> EntityPart(h) && h != Entity1)
  {
  }

  lemma {:induction false} AttlistRoles(h: PrologHandler, tok: Token, text: string)
    ensures var a := InAttlist(h, tok, text);
            a.Some? ==>
              && a.value.1 != InstanceStarts && tok != InstanceStart && !EntityPart(a.value.0)
              && a.value.1 != EntityText && a.value.1 != EntityNotationName
  {
  }

  lemma {:induction false} SpaceTurn(r: Reader, p: Prolog, text: string)
    requires !p.at.InElement?
    ensures Turn(r, p, PrologS, text) == Continue(if p.at == Prolog0 then p.(at := Prolog1) else p)
  {
    hide TokenRole;
    RoleOfToken(p.at, PrologS, text);
  }

  lemma {:induction false} ElementTurn(r: Reader, p: Prolog, tok: Token, text: string)
    requires p.at.InElement?
    ensures !Turn(r, p, tok, text).StartInstance? && (tok == InstanceStart ==> !Turn(r, p, tok, text).Continue?)
    ensures tok == PrologS ==> Turn(r, p, tok, text) == Continue(p) || Turn(r, p, tok, text) == Refuse(Syntax)
  {
    hide XmlRole.WithConnector;
  }

  lemma {:induction false} TokenTurn(r: Reader, p: Prolog, tok: Token, text: string)
    requires !p.at.InElement?
    ensures Turn(r, p, tok, text).StartInstance? ==> tok == InstanceStart
    ensures tok == InstanceStart ==> !Turn(r, p, tok, text).Continue?
  {
    hide TokenRole; hide EntityValue; hide StoreValue; hide IsPublicId; hide NameEntity; hide DefineEntity; hide DefineAttribute;
    RoleOfToken(p.at, tok, text);
  }

  /** The laws on which chunk independence, nesting and the round trip rest, for the prolog of the program. */
  lemma {:induction false} ReaderLaws(r: Reader)
    ensures RoleLaws(ReaderEnv(r))
  {
    hide Turn;
    var env := ReaderEnv(r);
    forall p: Prolog, w: string, w': string ensures SpaceInert(env, p, w, w') {
      if p.at.InElement? {
        ElementTurn(r, p, PrologS, w);
        ElementTurn(r, p, PrologS, w');
        SpaceAlike(r, p, w, w');
      } else {
        SpaceTurn(r, p, w);
        SpaceTurn(r, p, w');
        var q := if p.at == Prolog0 then p.(at := Prolog1) else p;
        SpaceTurn(r, q, w');
      }
    }
    forall p: Prolog, w: string ensures !env.role(p, InstanceStart, w).Continue? {
      if p.at.InElement? { ElementTurn(r, p, InstanceStart, w); } else { TokenTurn(r, p, InstanceStart, w); }
    }
    forall p: Prolog, tok: Token, w: string ensures env.role(p, tok, w).StartInstance? ==> tok == InstanceStart {
      if p.at.InElement? { ElementTurn(r, p, tok, w); } else { TokenTurn(r, p, tok, w); }
    }
  }

  lemma {:induction false} SpaceAlike(r: Reader, p: Prolog, w: string, w': string)
    requires p.at.InElement?
    ensures Turn(r, p, PrologS, w) == Turn(r, p, PrologS, w')
  {
  }

  // What declarations mean (sections 3.3 and 4.2 of XML 1.0)

  /** The prolog after some tokens of it. */
  function After(r: Reader, p: Prolog, l: seq<XmlRole.Lexeme>): Option<Prolog>
    decreases |l|
  {
    if l == [] then Some(p)
    else match Turn(r, p, l[0].tok, l[0].text)
      case Continue(q) => After(r, q, l[1..])
      case _ => None
  }

  /** The declaration at hand is not going to change the entity. */
  predicate Settled(p: Prolog, name: string)
  {
    name in p.dtd.entities && (EntityPart(p.at) && p.at != Entity1 ==> p.decl.entity != Some(name))
  }

  lemma {:induction false} ActSettled(r: Reader, p: Prolog, h: PrologHandler, tok: Token, text: string, name: string)
    requires Settled(p, name) && !p.at.InElement? && TokenRole(p.at, tok, text).Some? && h == TokenRole(p.at, tok, text).value.0
    ensures var a := Act(r, p.(at := h), TokenRole(p.at, tok, text).value.1, text);
            a.Continue? ==>
              && Settled(a.prolog, name) && a.prolog.dtd.entities[name] == p.dtd.entities[name]
              && forall e :: Defaults(p.dtd, e) <= Defaults(a.prolog.dtd, e)
  {
    hide Act; hide TokenRole; hide EntityPart; hide Defaults;
    RolesIn(p.at, tok, text);
    var q, role := p.(at := h), TokenRole(p.at, tok, text).value.1;
    EntityKept(r, q, role, text, name);
    DefaultsGrow(r, q, role, text);
  }

  /** Only the roles of an entity's value and notation define one, and only a name says which is to be defined. */
  lemma {:induction false} EntityKept(r: Reader, p: Prolog, role: Role, text: string, name: string)
    requires name in p.dtd.entities && (role == EntityText || role == EntityNotationName ==> p.decl.entity != Some(name))
    ensures var a := Act(r, p, role, text);
            a.Continue? ==>
              && name in a.prolog.dtd.entities && a.prolog.dtd.entities[name] == p.dtd.entities[name] && a.prolog.at == p.at
              && (a.prolog.decl.entity == p.decl.entity || a.prolog.decl.entity != Some(name))
              && (role == GeneralEntityName || role == ParamEntityName ==> a.prolog.decl.entity != Some(name))
  {
    hide EntityValue; hide StoreValue; hide IsPublicId; hide PredefinedEntityName;
  }

  lemma {:induction false} DefaultsGrow(r: Reader, p: Prolog, role: Role, text: string)
    ensures var a := Act(r, p, role, text); a.Continue? ==> forall e :: Defaults(p.dtd, e) <= Defaults(a.prolog.dtd, e)
  {
    hide EntityValue; hide StoreValue; hide IsPublicId; hide PredefinedEntityName;
  }

  /** Which handlers give the roles that have to do with entities. */
  lemma {:induction false} RolesIn(h: PrologHandler, tok: Token, text: string)
    requires !h.InElement?
    ensures var a := TokenRole(h, tok, text);
            a.Some? ==>
              && (EntityPart(a.value.0) && a.value.0 != Entity1 ==> a.value.1 == GeneralEntityName || a.value.1 == ParamEntityName || (EntityPart(h) && h != Entity1))
              && (a.value.1 == EntityText || a.value.1 == EntityNotationName ==> EntityPart(h) && h != Entity1)
  {
    hide TokenRole; hide InEntity; hide InAttlist;
    if h.Entity0? || EntityPart(h) {
      EntityRoles(h, tok, text);
      EntityTokenRole(h, tok, text);
    } else {
      OtherRoles(h, tok, text);
    }
  }

  lemma {:induction false} EntityTokenRole(h: PrologHandler, tok: Token, text: string)
    requires h.Entity0? || EntityPart(h)
    ensures TokenRole(h, tok, text) == if tok == PrologS then Some((h, NoRole)) else InEntity(h, tok, text)
  {
    hide InEntity;
  }

  lemma {:induction false} OtherRoles(h: PrologHandler, tok: Token, text: string)
    requires !h.InElement? && !h.Entity0? && !EntityPart(h)
    ensures var a := TokenRole(h, tok, text);
            a.Some? ==> !EntityPart(a.value.0) && a.value.1 != EntityText && a.value.1 != EntityNotationName
  {
    hide InEntity; hide InAttlist;
    AttlistRoles(h, tok, text);
  }

  /** Later declarations of an entity change nothing, and default attributes are only added behind those there are. */
  lemma {:induction false} FirstDeclarationBinds(r: Reader, p: Prolog, l: seq<XmlRole.Lexeme>, name: string)
    requires Settled(p, name)
    ensures After(r, p, l).Some? ==>
              var q := After(r, p, l).value;
              && name in q.dtd.entities && q.dtd.entities[name] == p.dtd.entities[name]
              && forall e :: Defaults(p.dtd, e) <= Defaults(q.dtd, e)
    decreases |l|
  {
    hide TokenRole; hide Act; hide XmlRole.Move;
    if l != [] && Turn(r, p, l[0].tok, l[0].text).Continue? {
      var q := Turn(r, p, l[0].tok, l[0].text).prolog;
      if p.at.InElement? {
        assert q.dtd == p.dtd && Settled(q, name);
      } else {
        ActSettled(r, p, TokenRole(p.at, l[0].tok, l[0].text).value.0, l[0].tok, l[0].text, name);
      }
      FirstDeclarationBinds(r, q, l[1..], name);
      if After(r, p, l).Some? {
        forall e ensures Defaults(p.dtd, e) <= Defaults(After(r, p, l).value.dtd, e) {
          assert Defaults(p.dtd, e) <= Defaults(q.dtd, e);
        }
      }
    }
  }
}
