/**
 Documents with a document type declaration: what is declared in it is what the
 root element is parsed with, byte for byte, for any declarations.
 */
module XmlDoctype {
  import opened XmlScan
  import opened XmlTok
  import opened XmlValue
  import opened XmlContent
  import opened XmlChunks
  import opened XmlTree
  import opened XmlPrinted
  import opened XmlRoundTrip
  import opened XmlMarkup
  import opened XmlWords
  import opened XmlEntities
  import opened XmlLiterals
  import opened XmlProlog
  import opened XmlDeclarations
  import opened XmlDeclared
  import opened XmlDtd
  import XmlRole

  // ---- From tokens to bytes ----

  /** Tokens with a space behind each. */
  function Spread(l: Lexemes): string
    decreases |l|
  {
    if l == [] then "" else l[0].text + (" " + Spread(l[1..]))
  }

  ghost predicate AllFits(enc: Encoding, l: Lexemes) { forall i :: 0 <= i < |l| ==> Fits(enc, l[i]) }

  /** A state in which white space changes nothing. */
  predicate Calm(p: Prolog)
  {
    && p.at != Prolog0
    && (p.at.InElement? ==> p.at.handler != XmlRole.InternalSubset && p.at.handler != XmlRole.ErrorHandler && XmlRole.DeclState(p.at.handler, p.open).Valid())
  }

  lemma {:induction false} SpaceKeeps(r: Reader, p: Prolog, text: string)
    requires Calm(p)
    ensures Turn(r, p, PrologS, text) == Continue(p)
  {
    hide TokenRole;
    if p.at.InElement? { ElementSpace(r, p, text); } else { SpaceTurn(r, p, text); }
  }

  lemma {:induction false} ElementSpace(r: Reader, p: Prolog, text: string)
    requires p.at.InElement? && Calm(p)
    ensures Turn(r, p, PrologS, text) == Continue(p)
  {
    assert XmlRole.Move(XmlRole.DeclState(p.at.handler, p.open), XmlRole.Lexeme(PrologS, text)) == Some(XmlRole.DeclState(p.at.handler, p.open));
  }

  lemma {:induction false} RolesLeaveStart(h: PrologHandler, tok: Token, text: string)
    requires !h.InElement? && TokenRole(h, tok, text).Some? && tok != InstanceStart
    ensures var h' := TokenRole(h, tok, text).value.0; h' != Prolog0 && (h'.InElement? ==> h' == InElement(XmlRole.Element0))
  {
    hide InEntity; hide InAttlist;
    PartsLeaveStart(h, tok, text);
  }

  lemma {:induction false} PartsLeaveStart(h: PrologHandler, tok: Token, text: string)
    ensures InEntity(h, tok, text).Some? ==> InEntity(h, tok, text).value.0 != Prolog0 && !InEntity(h, tok, text).value.0.InElement?
    ensures InAttlist(h, tok, text).Some? ==> InAttlist(h, tok, text).value.0 != Prolog0 && !InAttlist(h, tok, text).value.0.InElement?
  {
  }

  lemma {:induction false} ActStays(r: Reader, p: Prolog, role: Role, text: string)
    ensures Act(r, p, role, text).Continue? ==> Act(r, p, role, text).prolog.at == p.at && Act(r, p, role, text).prolog.open == p.open
  {
    hide EntityValue; hide StoreValue; hide IsPublicId; hide PredefinedEntityName;
  }

  lemma {:induction false} TurnSettles(r: Reader, p: Prolog, x: XmlRole.Lexeme)
    requires (p.at.InElement? ==> Calm(p)) && Turn(r, p, x.tok, x.text).Continue?
    ensures Calm(Turn(r, p, x.tok, x.text).prolog)
  {
    hide TokenRole; hide Act; hide XmlRole.Move;
    if p.at.InElement? {
      NoErrorHandler(XmlRole.DeclState(p.at.handler, p.open), XmlRole.Lexeme(x.tok, x.text));
    } else {
      TokenTurn(r, p, x.tok, x.text);
      RolesLeaveStart(p.at, x.tok, x.text);
      var a := TokenRole(p.at, x.tok, x.text).value;
      ActStays(r, p.(at := a.0), a.1, x.text);
    }
  }

  /** One token of the prolog. */
  lemma {:induction false} TokenTaken(env: Env, p: Prolog, w: string, n: nat, tok: Token, q: Prolog, f: bool)
    requires 0 < n <= |w| && PrologTok(env.enc, w) == Tok(tok, n) && env.role(p, tok, w[..n]) == Continue(q)
    ensures ProcessProlog(env, p, w, f) == ProcessProlog(env, q, w[n..], f)
  {
    hide PrologTok; hide Content;
  }

  lemma {:induction false} SpaceToken(enc: Encoding, rest: string)
    requires Utf8(enc) && (rest == "" || (enc.byteType(rest[0]) != S && enc.byteType(rest[0]) != LF && enc.byteType(rest[0]) != CR))
    ensures PrologTok(enc, " " + rest) == Tok(PrologS, 1)
  {
    hide Scan;
    Types(enc);
    var w := " " + rest;
    if rest != "" { assert w[1] == rest[0]; }
  }

  predicate NoSpaceFirst(enc: Encoding, rest: string)
  {
    rest == "" || (enc.byteType(rest[0]) != S && enc.byteType(rest[0]) != LF && enc.byteType(rest[0]) != CR)
  }

  lemma {:induction false} TokensStart(enc: Encoding, x: XmlRole.Lexeme, rest: string)
    requires Utf8(enc) && Fits(enc, x)
    ensures NoSpaceFirst(enc, x.text + rest)
  {
    hide PrologTok;
    AnyToken(enc, x, "");
    var w := x.text + (" " + "");
    assert w[0] == x.text[0] && (x.text + rest)[0] == x.text[0];
    NoSpaceTok(enc, w, x);
  }

  lemma {:induction false} NoSpaceTok(enc: Encoding, w: string, x: XmlRole.Lexeme)
    requires w != "" && PrologTok(enc, w).Tok? && PrologTok(enc, w).tok != PrologS
    ensures enc.byteType(w[0]) != S && enc.byteType(w[0]) != LF && enc.byteType(w[0]) != CR
  {
    hide Scan;
  }

  lemma {:induction false} SpreadStarts(enc: Encoding, l: Lexemes, rest: string)
    requires Utf8(enc) && AllFits(enc, l) && NoSpaceFirst(enc, rest)
    ensures NoSpaceFirst(enc, Spread(l) + rest)
  {
    hide Fits; hide Utf8; hide NoSpaceFirst;
    if l == [] {
      assert Spread(l) + rest == rest;
    } else {
      TokensStart(enc, l[0], " " + Spread(l[1..]) + rest);
      assert Spread(l) + rest == l[0].text + (" " + Spread(l[1..]) + rest);
    }
  }

  /** Reading the bytes is taking the tokens. */
  lemma {:induction false} SpreadParsed(r: Reader, p: Prolog, l: Lexemes, rest: string, f: bool)
    requires Utf8(r.enc) && AllFits(r.enc, l) && NoSpaceFirst(r.enc, rest) && (p.at.InElement? ==> Calm(p)) && After(r, p, l).Some?
    ensures ProcessProlog(ReaderEnv(r), p, Spread(l) + rest, f) == ProcessProlog(ReaderEnv(r), After(r, p, l).value, rest, f)
    decreases |l|
  {
    hide Utf8; hide Fits; hide NoSpaceFirst; hide PrologTok; hide ProcessProlog; hide Turn; hide Calm;
    var env := ReaderEnv(r);
    if l == [] {
      assert Spread(l) + rest == rest;
    } else {
      var x, behind := l[0], Spread(l[1..]) + rest;
      var w := x.text + (" " + behind);
      assert Spread(l) + rest == w;
      AnyToken(r.enc, x, behind);
      var q := Turn(r, p, x.tok, x.text).prolog;
      assert w[..|x.text|] == x.text && w[|x.text|..] == " " + behind;
      TokenTaken(env, p, w, |x.text|, x.tok, q, f);
      TurnSettles(r, p, x);
      SpreadStarts(r.enc, l[1..], rest);
      SpaceBehind(r, q, behind, f);
      SpreadParsed(r, q, l[1..], rest, f);
    }
  }

  lemma {:induction false} SpaceBehind(r: Reader, p: Prolog, rest: string, f: bool)
    requires Utf8(r.enc) && NoSpaceFirst(r.enc, rest) && Calm(p)
    ensures ProcessProlog(ReaderEnv(r), p, " " + rest, f) == ProcessProlog(ReaderEnv(r), p, rest, f)
  {
    hide Utf8; hide PrologTok; hide ProcessProlog; hide Turn; hide Calm;
    var w := " " + rest;
    SpaceToken(r.enc, rest);
    assert w[..1] == " " && w[1..] == rest;
    SpaceKeeps(r, p, " ");
    TokenTaken(ReaderEnv(r), p, w, 1, PrologS, p, f);
  }

  // ---- The declaration ----

  function IdIn(id: Option<ExternalId>): Lexemes { if id == None then [] else IdTokens(id.value) }

  /** The internal subset, if there is something in it, and the end. */
  function SubsetTokens(l: seq<Declaration>): Lexemes
    requires Fitting(l)
  {
    if l == [] then [CLOSE] else [XmlRole.Lexeme(OpenBracket, "[")] + (AllTokens(l) + [XmlRole.Lexeme(CloseBracket, "]"), CLOSE])
  }

  /** A document type declaration as tokens. */
  function Doctype(name: string, id: Option<ExternalId>, l: seq<Declaration>): Lexemes
    requires Fitting(l)
  {
    [Open("<!DOCTYPE"), Word(name)] + (IdIn(id) + SubsetTokens(l))
  }

  lemma {:induction false} DoctypeRoles(h: PrologHandler, text: string)
    requires h == Prolog0 || h == Prolog1
    ensures TokenRole(h, DeclOpen, "<!DOCTYPE") == Some((Doctype0, NoRole)) && TokenRole(Doctype0, Name, text) == Some((Doctype1, DoctypeName))
  {
    hide InEntity; hide InAttlist;
  }

  lemma {:induction false} BracketRoles(text: string)
    ensures TokenRole(Doctype1, OpenBracket, text) == Some((Subset, NoRole)) == TokenRole(Doctype4, OpenBracket, text)
    ensures TokenRole(Subset, CloseBracket, text) == Some((Doctype5, NoRole))
  {
    hide InEntity; hide InAttlist;
  }

  lemma {:induction false} EndRoles(text: string)
    ensures TokenRole(Doctype1, DeclClose, text) == Some((Prolog2, DoctypeClose)) == TokenRole(Doctype4, DeclClose, text)
    ensures TokenRole(Doctype5, DeclClose, text) == Some((Prolog2, DoctypeClose))
  {
    hide InEntity; hide InAttlist;
  }

  lemma {:induction false} DoctypeIdRoles(text: string)
    ensures TokenRole(Doctype1, Name, "SYSTEM") == Some((Doctype3, NoRole)) && TokenRole(Doctype1, Name, "PUBLIC") == Some((Doctype2, NoRole))
    ensures TokenRole(Doctype2, Literal, text) == Some((Doctype3, DoctypePublicId)) && TokenRole(Doctype3, Literal, text) == Some((Doctype4, DoctypeSystemId))
  {
    hide InEntity; hide InAttlist;
  }

  lemma {:induction false} SystemActs(r: Reader, p: Prolog, text: string)
    ensures Act(r, p, DoctypeSystemId, text) == Continue(p.(decl := p.decl.(hadExternalDoctype := true)))
  {
  }

  /** The identifier of an external DTD, which is not read, but known to be there. */
  lemma {:induction false} IdTaken(r: Reader, p: Prolog, id: ExternalId, rest: Lexemes)
    requires Utf8(r.enc) && r.enc.byteType('\r') == CR && p.at == Doctype1
    ensures After(r, p, IdTokens(id) + rest) ==
            if PublicFits(id) then After(r, p.(at := Doctype4, decl := p.decl.(hadExternalDoctype := true)), rest) else None
  {
    hide TokenRole; hide After; hide Utf8; hide LegalPublic; hide Act; hide Quoted; hide Lit; hide Word;
    match id
    case System(s) =>
      DoctypeIdRoles(Quoted(s));
      WordIs("SYSTEM");
      WordIs(s);
      assert IdTokens(id) + rest == [Word("SYSTEM")] + ([Lit(s)] + rest);
      Passes(r, p, Word("SYSTEM"), Doctype3, NoRole, [Lit(s)] + rest);
      XmlDeclared.Goes(r, p.(at := Doctype3), Lit(s), Doctype4, DoctypeSystemId, rest);
      SystemActs(r, p.(at := Doctype4), Quoted(s));
    case Public(v, s) =>
      DoctypeIdRoles(Quoted(v));
      DoctypeIdRoles(Quoted(s));
      WordIs("PUBLIC");
      WordIs(v);
      WordIs(s);
      assert IdTokens(id) + rest == [Word("PUBLIC")] + ([Lit(v)] + ([Lit(s)] + rest));
      Passes(r, p, Word("PUBLIC"), Doctype2, NoRole, [Lit(v)] + ([Lit(s)] + rest));
      XmlDeclared.Goes(r, p.(at := Doctype2), Lit(v), Doctype3, DoctypePublicId, [Lit(s)] + rest);
      PublicActs(r, p.(at := Doctype3), DoctypePublicId, v);
      XmlDeclared.Goes(r, p.(at := Doctype3), Lit(s), Doctype4, DoctypeSystemId, rest);
      SystemActs(r, p.(at := Doctype4), Quoted(s));
  }

  /** The state behind the name and the identifier. */
  function Headed(p: Prolog, id: Option<ExternalId>): Prolog
  {
    if id == None then p.(at := Doctype1) else p.(at := Doctype4, decl := p.decl.(hadExternalDoctype := true))
  }

  lemma {:induction false} HeadTaken(r: Reader, p: Prolog, name: string, id: Option<ExternalId>, tail: Lexemes)
    requires Utf8(r.enc) && r.enc.byteType('\r') == CR && (p.at == Prolog0 || p.at == Prolog1)
    ensures After(r, p, [Open("<!DOCTYPE"), Word(name)] + (IdIn(id) + tail)) == if id.Some? && !PublicFits(id.value) then None else After(r, Headed(p, id), tail)
  {
    hide TokenRole; hide After; hide Utf8; hide Word; hide Open; hide PublicFits; hide IdTokens;
    assert [Open("<!DOCTYPE"), Word(name)] + (IdIn(id) + tail) == [Open("<!DOCTYPE")] + ([Word(name)] + (IdIn(id) + tail));
    WordIs("<!DOCTYPE");
    WordIs(name);
    DoctypeRoles(p.at, name);
    Passes(r, p, Open("<!DOCTYPE"), Doctype0, NoRole, [Word(name)] + (IdIn(id) + tail));
    Passes(r, p.(at := Doctype0), Word(name), Doctype1, DoctypeName, IdIn(id) + tail);
    if id == None {
      assert IdIn(id) + tail == tail;
    } else {
      IdTaken(r, p.(at := Doctype1), id.value, tail);
    }
  }

  lemma {:induction false} OpenTaken(r: Reader, p: Prolog, rest: Lexemes)
    requires p.at == Doctype1 || p.at == Doctype4
    ensures After(r, p, [XmlRole.Lexeme(OpenBracket, "[")] + rest) == After(r, p.(at := Subset), rest)
    ensures After(r, p, [CLOSE]) == Some(p.(at := Prolog2))
  {
    hide TokenRole; hide After; hide CLOSE;
    CloseIs();
    BracketRoles("[");
    EndRoles(">");
    Passes(r, p, XmlRole.Lexeme(OpenBracket, "["), Subset, NoRole, rest);
    assert [CLOSE] == [CLOSE] + [];
    Passes(r, p, CLOSE, Prolog2, DoctypeClose, []);
    OneMore(r, p.(at := Prolog2), CLOSE, []);
  }

  lemma {:induction false} EndTaken(r: Reader, p: Prolog)
    requires p.at == Subset
    ensures After(r, p, [XmlRole.Lexeme(CloseBracket, "]"), CLOSE]) == Some(p.(at := Prolog2))
  {
    hide TokenRole; hide After; hide CLOSE;
    CloseIs();
    BracketRoles("]");
    EndRoles(">");
    var bracket := XmlRole.Lexeme(CloseBracket, "]");
    assert [bracket, CLOSE] == [bracket] + ([CLOSE] + []);
    Passes(r, p, bracket, Doctype5, NoRole, [CLOSE] + []);
    Passes(r, p.(at := Doctype5), CLOSE, Prolog2, DoctypeClose, []);
    OneMore(r, p.(at := Prolog2), CLOSE, []);
  }

  /** What the whole declaration gives: the DTD of its declarations, unless one is not in order. */
  function Declares(internal: Encoding, dtd: Dtd, id: Option<ExternalId>, l: seq<Declaration>): Option<Dtd>
  {
    if id.Some? && !PublicFits(id.value) then None else AllDeclared(internal, dtd, l)
  }

  /** The tokens of a document type declaration. */
  lemma {:induction false} DoctypeMeans(r: Reader, p: Prolog, name: string, id: Option<ExternalId>, l: seq<Declaration>)
    requires Ready(r, p.dtd) && (p.at == Prolog0 || p.at == Prolog1) && AllLegal(r.enc, l)
    ensures Fitting(l)
    ensures var q := After(r, p, Doctype(name, id, l));
            match Declares(r.internal, p.dtd, id, l)
            case None => q == None
            case Some(dtd) => q.Some? && q.value.at == Prolog2 && q.value.dtd == dtd && Ready(r, dtd) &&
                              q.value.decl.hadExternalDoctype == (p.decl.hadExternalDoctype || id.Some?)
  {
    hide Utf8; hide Whole; hide LegalDeclaration; hide After; hide AllTokens; hide PublicFits; hide Word; hide Open; hide IdIn; hide CLOSE;
    var end := [XmlRole.Lexeme(CloseBracket, "]"), CLOSE];
    var h := Headed(p, id);
    var q := h.(at := Subset);
    HeadTaken(r, p, name, id, SubsetTokens(l));
    OpenTaken(r, h, AllTokens(l) + end);
    if l != [] {
      hide AllDeclared;
      DeclarationsMean(r, q, l);
      AfterBoth(r, q, AllTokens(l), end);
      if AllDeclared(r.internal, p.dtd, l).Some? { EndTaken(r, After(r, q, AllTokens(l)).value); }
    }
  }

  // ---- The document ----

  /** With an external DTD, which has not been read, not all declarations are known. */
  function Known(dtd: Dtd, id: Option<ExternalId>): Dtd { dtd.(complete := dtd.complete && id == None) }

  lemma {:induction false} InstanceTurn(r: Reader, p: Prolog)
    requires p.at == Prolog2
    ensures Turn(r, p, InstanceStart, "") == StartInstance(if p.decl.hadExternalDoctype then p.(dtd := p.dtd.(complete := false)) else p)
  {
    hide InEntity; hide InAttlist;
  }

  lemma {:induction false} InstanceParsed(env: Env, p: Prolog, w: string, q: Prolog, f: bool)
    requires PrologTok(env.enc, w) == Tok(InstanceStart, 0) && env.role(p, InstanceStart, "") == StartInstance(q)
    ensures ProcessProlog(env, p, w, f) == In(env, Outermost(env), q, [], w, f)
  {
    hide PrologTok; hide Content;
    assert w[..0] == "";
  }

  lemma {:induction false} BodyStarts(enc: Encoding, body: string)
    requires Utf8(enc) && body != "" && body[0] == '<'
    ensures NoSpaceFirst(enc, body)
  {
    Types(enc);
  }
}
