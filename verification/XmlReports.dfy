/**
 What is reported for a whole document, from its bytes: a document type
 declaration with any declarations, and a root element with any content, parsed
 in whatever chunks.
 */
module XmlReports {
  import opened XmlScan
  import opened XmlTok
  import opened XmlValue
  import opened XmlContent
  import opened XmlChunks
  import opened XmlPool
  import opened XmlTree
  import opened XmlPrinted
  import opened XmlRoundTrip
  import opened XmlDefaults
  import opened XmlEntities
  import opened XmlLiterals
  import opened XmlProlog
  import opened XmlDocuments
  import opened XmlDeclarations
  import opened XmlDeclared
  import opened XmlDtd
  import opened XmlDoctype
  import opened XmlTags
  import opened XmlMeaning
  import XmlRole

  // ---- Refused declarations ----

  lemma {:induction false} RefusedHere(env: Env, p: Prolog, w: string, n: nat, tok: Token, f: bool)
    requires 0 < n <= |w| && PrologTok(env.enc, w) == Tok(tok, n) && env.role(p, tok, w[..n]).Refuse?
    ensures ProcessProlog(env, p, w, f).outcome.Failed?
  {
    hide PrologTok; hide Content;
  }

  lemma {:induction false} NoInstance(r: Reader, p: Prolog, x: XmlRole.Lexeme)
    requires x.tok != InstanceStart
    ensures !Turn(r, p, x.tok, x.text).StartInstance?
  {
    hide Turn;
    if p.at.InElement? { ElementTurn(r, p, x.tok, x.text); } else { TokenTurn(r, p, x.tok, x.text); }
  }

  lemma {:induction false} FitsNoInstance(enc: Encoding, x: XmlRole.Lexeme)
    requires Fits(enc, x)
    ensures x.tok != InstanceStart
  {
  }

  /** Bytes whose tokens are refused are refused. */
  lemma {:induction false} SpreadRefused(r: Reader, p: Prolog, l: Lexemes, rest: string, f: bool)
    requires Utf8(r.enc) && AllFits(r.enc, l) && NoSpaceFirst(r.enc, rest) && (p.at.InElement? ==> Calm(p)) && After(r, p, l) == None
    ensures ProcessProlog(ReaderEnv(r), p, Spread(l) + rest, f).outcome.Failed?
    decreases |l|
  {
    hide Utf8; hide Fits; hide NoSpaceFirst; hide PrologTok; hide ProcessProlog; hide Turn; hide Calm;
    var env := ReaderEnv(r);
    var x, behind := l[0], Spread(l[1..]) + rest;
    var w := x.text + (" " + behind);
    assert Spread(l) + rest == w;
    AnyToken(r.enc, x, behind);
    assert w[..|x.text|] == x.text && w[|x.text|..] == " " + behind;
    FitsNoInstance(r.enc, x);
    NoInstance(r, p, x);
    if Turn(r, p, x.tok, x.text).Continue? {
      var q := Turn(r, p, x.tok, x.text).prolog;
      TokenTaken(env, p, w, |x.text|, x.tok, q, f);
      TurnSettles(r, p, x);
      SpreadStarts(r.enc, l[1..], rest);
      SpaceBehind(r, q, behind, f);
      SpreadRefused(r, q, l[1..], rest, f);
    } else {
      RefusedHere(env, p, w, |x.text|, x.tok, f);
    }
  }

  // ---- Around the root ----

  /** Comments and processing instructions. */
  predicate Asides(l: Lexemes) { forall i :: 0 <= i < |l| ==> l[i].tok == Comment || l[i].tok == Pi }

  function Past(h: PrologHandler, l: Lexemes): PrologHandler { if l != [] && h == Prolog0 then Prolog1 else h }

  lemma {:induction false} AsideRoles(h: PrologHandler, tok: Token, text: string)
    requires h in {Prolog0, Prolog1, Prolog2} && (tok == Comment || tok == Pi)
    ensures TokenRole(h, tok, text) == Some((if h == Prolog0 then Prolog1 else h, NoRole))
  {
    hide InEntity; hide InAttlist;
  }

  lemma {:induction false} AsidesTaken(r: Reader, p: Prolog, l: Lexemes)
    requires Asides(l) && p.at in {Prolog0, Prolog1, Prolog2}
    ensures After(r, p, l) == Some(p.(at := Past(p.at, l)))
    decreases |l|
  {
    hide TokenRole; hide After;
    if l == [] {
      XmlDeclarations.OneMore(r, p, CLOSE, []);
    } else {
      AsideRoles(p.at, l[0].tok, l[0].text);
      assert l == [l[0]] + l[1..];
      var h := if p.at == Prolog0 then Prolog1 else p.at;
      Passes(r, p, l[0], h, NoRole, l[1..]);
      AsidesTaken(r, p.(at := h), l[1..]);
    }
  }

  lemma {:induction false} EpilogToken(env: Env, prolog: Prolog, w: string, n: nat, tok: Token, f: bool)
    requires 0 < n <= |w| && PrologTok(env.enc, w) == Tok(tok, n) && tok in {PrologS, Pi, Comment}
    ensures Epilog(env, prolog, [], w, f) == Epilog(env, prolog, [], w[n..], f)
  {
    hide PrologTok;
  }

  /** Behind the root they make no difference. */
  lemma {:induction false} AsidesBehind(env: Env, prolog: Prolog, l: Lexemes)
    requires Utf8(env.enc) && Asides(l) && AllFits(env.enc, l)
    ensures Epilog(env, prolog, [], Spread(l), true) == Result([], Stopped(EpilogPhase, prolog, [], ""))
    decreases |l|
  {
    hide Utf8; hide Fits; hide PrologTok; hide Epilog;
    if l == [] {
      EpilogAtEnd(env, prolog, [], true);
    } else {
      var x, rest := l[0], Spread(l[1..]);
      var w := x.text + (" " + rest);
      AnyToken(env.enc, x, rest);
      assert w[|x.text|..] == " " + rest && (" " + rest)[1..] == rest;
      EpilogToken(env, prolog, w, |x.text|, x.tok, true);
      assert NoSpaceFirst(env.enc, "");
      SpreadStarts(env.enc, l[1..], "");
      assert rest + "" == rest;
      SpaceToken(env.enc, rest);
      EpilogToken(env, prolog, " " + rest, 1, PrologS, true);
      AsidesBehind(env, prolog, l[1..]);
    }
  }

  /** A second root element is refused. */
  lemma {:induction false} OneRoot(env: Env, prolog: Prolog, root: Item, rest: string, f: bool)
    requires Utf8(env.enc) && Right(env.enc, root) && root.Node?
    ensures Epilog(env, prolog, [], Written(root) + rest, f) == Result([], Failed(JunkAfterDocElement))
  {
    hide Utf8; hide Right; hide Written; hide PrologTok; hide NmstrtCase;
    var w := Written(root) + rest;
    RootStarts(env.enc, root);
    assert w[1..] == Written(root)[1..] + rest;
    XmlScan.CharCasesStable(env.enc, Written(root)[1..], rest);
    LtExclaims(env.enc, w);
  }

  // ---- Documents ----

  /** What may stand in front: an XML declaration, and asides. */
  predicate Front(l: Lexemes) { Asides(l) || (l != [] && l[0].tok == XmlDecl && Asides(l[1..])) }

  /** No declarations yet, and all of them known. */
  const NO_DTD := Dtd(map[], map[], true, false)

  /** With standalone="yes" in the XML declaration, nothing outside is needed (section 2.9); or the declaration is refused. */
  function Begun(r: Reader, before: Lexemes): Option<Dtd>
  {
    if before != [] && before[0].tok == XmlDecl then
      (match r.xmlDecl(before[0].text) case XmlDeclError(_) => None case XmlDeclRead(standalone) => Some(NO_DTD.(standalone := standalone)))
    else Some(NO_DTD)
  }

  /** The DTD of all that is in front of the root. */
  function DtdOf(r: Reader, before: Lexemes, id: Option<ExternalId>, l: seq<Declaration>): Option<Dtd>
  {
    match Begun(r, before) case None => None case Some(dtd) => Declares(r.internal, dtd, id, l)
  }

  lemma {:induction false} FrontTaken(r: Reader, before: Lexemes)
    requires Front(before)
    ensures match Begun(r, before)
            case None => After(r, Initial(NO_DTD), before) == None
            case Some(dtd) => After(r, Initial(NO_DTD), before) == Some(Initial(dtd).(at := Past(Prolog0, before)))
  {
    hide TokenRole; hide After; hide Asides;
    if before != [] && before[0].tok == XmlDecl {
      DeclarationRole(before[0].text);
      assert before == [before[0]] + before[1..];
      XmlDeclared.Goes(r, Initial(NO_DTD), before[0], Prolog1, XmlDeclaration, before[1..]);
      NoAside(before);
      if Begun(r, before).Some? { AsidesTaken(r, Initial(Begun(r, before).value).(at := Prolog1), before[1..]); }
    } else {
      AsidesTaken(r, Initial(NO_DTD), before);
    }
  }

  lemma {:induction false} NoAside(l: Lexemes)
    requires l != [] && l[0].tok == XmlDecl && Front(l)
    ensures Asides(l[1..])
  {
  }

  lemma {:induction false} DeclarationRole(text: string)
    ensures TokenRole(Prolog0, XmlDecl, text) == Some((Prolog1, XmlDeclaration))
  {
    hide InEntity; hide InAttlist;
  }

  /** A document as bytes: what may stand around the document type declaration and the root, and these two. */
  function Document(before: Lexemes, name: string, id: Option<ExternalId>, l: seq<Declaration>, between: Lexemes, root: Item, behind: Lexemes): string
    requires Fitting(l)
  {
    Spread(before + Doctype(name, id, l) + between) + (Written(root) + Spread(behind))
  }

  /** In order, and written as tokens are. */
  ghost predicate Proper(r: Reader, before: Lexemes, name: string, id: Option<ExternalId>, l: seq<Declaration>, between: Lexemes, root: Item, behind: Lexemes)
  {
    && Utf8(r.enc) && r.enc.byteType('\r') == CR && Utf8(r.internal)
    && AllLegal(r.enc, l) && Fitting(l) && Front(before) && Asides(between) && Asides(behind)
    && AllFits(r.enc, before + Doctype(name, id, l) + between) && AllFits(r.enc, behind) && root.Node? && Right(r.enc, root)
  }

  lemma {:induction false} NothingReady(r: Reader, before: Lexemes)
    requires Utf8(r.enc) && r.enc.byteType('\r') == CR && Utf8(r.internal)
    ensures Begun(r, before).Some? ==> Ready(r, Begun(r, before).value)
  {
    hide XmlWords.AllSolid; hide Utf8;
  }

  lemma {:induction false} RootStarts(enc: Encoding, root: Item)
    requires Right(enc, root) && root.Node?
    ensures var w := Written(root); |w| > 1 && w[0] == '<' && NmstrtCase(enc, w[1..]).Take?
  {
    hide AttsText; hide AllWritten; hide NameRest; hide LegalSpelled; hide AllRight; hide NmstrtCase; hide EndText;
    var w, name := Written(root), root.tag.name;
    var rest := w[1 + |name|..];
    assert w == "<" + (name + rest);
    assert w[1..] == name + rest;
    XmlScan.CharCasesStable(enc, name, rest);
  }

  /** The prolog as tokens. */
  lemma {:induction false} PrologMeans(r: Reader, before: Lexemes, name: string, id: Option<ExternalId>, l: seq<Declaration>, between: Lexemes)
    requires Utf8(r.enc) && r.enc.byteType('\r') == CR && Utf8(r.internal) && AllLegal(r.enc, l) && Front(before) && Asides(between)
    ensures Fitting(l)
    ensures var q := After(r, Initial(NO_DTD), before + Doctype(name, id, l) + between);
            match DtdOf(r, before, id, l)
            case None => q == None
            case Some(dtd) => q.Some? && q.value.at == Prolog2 && q.value.dtd == dtd && q.value.decl.hadExternalDoctype == id.Some? && Ready(r, dtd)
  {
    hide Utf8; hide Ready; hide LegalDeclaration; hide After; hide Doctype; hide Declares; hide NO_DTD; hide Front; hide Asides;
    FrontTaken(r, before);
    NothingReady(r, before);
    AfterBoth(r, Initial(NO_DTD), before, Doctype(name, id, l));
    AfterBoth(r, Initial(NO_DTD), before + Doctype(name, id, l), between);
    if Begun(r, before).Some? {
      var dtd := Begun(r, before).value;
      var p := Initial(dtd).(at := Past(Prolog0, before));
      DoctypeMeans(r, p, name, id, l);
      if Declares(r.internal, dtd, id, l).Some? { AsidesTaken(r, After(r, p, Doctype(name, id, l)).value, between); }
    }
  }

  lemma {:induction false} KnownWhole(r: Reader, dtd: Dtd, id: Option<ExternalId>)
    requires Ready(r, dtd)
    ensures Whole(r.internal, Known(dtd, id))
  {
    hide XmlWords.AllSolid; hide Utf8;
  }

  /** Any such prolog, and the root element behind it. */
  lemma {:induction false} PrologParsed(r: Reader, before: Lexemes, name: string, id: Option<ExternalId>, l: seq<Declaration>, between: Lexemes, body: string) returns (p: Prolog)
    requires Utf8(r.enc) && r.enc.byteType('\r') == CR && Utf8(r.internal) && AllLegal(r.enc, l) && Fitting(l) && Front(before) && Asides(between)
    requires AllFits(r.enc, before + Doctype(name, id, l) + between)
    requires DtdOf(r, before, id, l).Some? && |body| > 1 && body[0] == '<' && NmstrtCase(r.enc, body[1..]).Take?
    ensures ProcessProlog(ReaderEnv(r), Initial(NO_DTD), Spread(before + Doctype(name, id, l) + between) + body, true) == In(ReaderEnv(r), Outermost(ReaderEnv(r)), p, [], body, true)
    ensures p.dtd == Known(DtdOf(r, before, id, l).value, id) && Whole(r.internal, p.dtd)
  {
    hide Utf8; hide Whole; hide Ready; hide LegalDeclaration; hide After; hide Fits; hide Doctype; hide DtdOf; hide PrologTok; hide ProcessProlog; hide Turn; hide Spread; hide In;
    hide NmstrtCase; hide NO_DTD; hide Front; hide Asides;
    var all := before + Doctype(name, id, l) + between;
    PrologMeans(r, before, name, id, l, between);
    var q := After(r, Initial(NO_DTD), all).value;
    BodyStarts(r.enc, body);
    SpreadParsed(r, Initial(NO_DTD), all, body, true);
    LtExclaims(r.enc, body);
    InstanceTurn(r, q);
    p := if q.decl.hadExternalDoctype then q.(dtd := q.dtd.(complete := false)) else q;
    InstanceParsed(ReaderEnv(r), q, body, p, true);
    KnownWhole(r, q.dtd, id);
  }

  /** A declaration that is not in order. */
  lemma {:induction false} PrologRefused(r: Reader, before: Lexemes, name: string, id: Option<ExternalId>, l: seq<Declaration>, between: Lexemes, body: string)
    requires Utf8(r.enc) && r.enc.byteType('\r') == CR && Utf8(r.internal) && AllLegal(r.enc, l) && Fitting(l) && Front(before) && Asides(between)
    requires AllFits(r.enc, before + Doctype(name, id, l) + between)
    requires DtdOf(r, before, id, l) == None && body != "" && body[0] == '<'
    ensures ProcessProlog(ReaderEnv(r), Initial(NO_DTD), Spread(before + Doctype(name, id, l) + between) + body, true).outcome.Failed?
  {
    hide Utf8; hide LegalDeclaration; hide After; hide Fits; hide Doctype; hide DtdOf; hide Spread; hide ProcessProlog; hide NO_DTD; hide Front; hide Asides;
    PrologMeans(r, before, name, id, l, between);
    BodyStarts(r.enc, body);
    SpreadRefused(r, Initial(NO_DTD), before + Doctype(name, id, l) + between, body, true);
  }

  /** Every document that is written so is reported as it is meant, in whatever chunks it comes, and refused where something is
      wrong in it. */
  lemma {:induction false} DocumentReported(r: Reader, before: Lexemes, name: string, id: Option<ExternalId>, l: seq<Declaration>, between: Lexemes, texts: Texts, root: Item,
                                            behind: Lexemes, chunks: seq<string>, last: string)
    requires Proper(r, before, name, id, l, between, root, behind) && Concat(chunks) + last == Document(before, name, id, l, between, root, behind)
    requires DtdOf(r, before, id, l).Some? ==> Backed(r.internal, Known(DtdOf(r, before, id, l).value, id), texts)
    ensures var p := ParseOf(r, NO_DTD, chunks, last);
            match DtdOf(r, before, id, l)
            case None => p.outcome.Failed?
            case Some(dtd) =>
              match Means(r.internal, Known(dtd, id), texts, {}, root)
              case Wrong(code) => p.outcome == Failed(code)
              case Fine(e) => p.outcome.Stopped? && p.events == e
  {
    hide Utf8; hide LegalDeclaration; hide Fits; hide Doctype; hide DtdOf; hide Spread; hide Written; hide Means; hide Right; hide Backed; hide RoleLaws; hide Ready; hide In;
    hide XmlChunks.Parse; hide ProcessProlog; hide After; hide NmstrtCase; hide NO_DTD; hide Asides; hide Front;
    var env, body := ReaderEnv(r), Written(root) + Spread(behind);
    var all := before + Doctype(name, id, l) + between;
    ReaderLaws(r);
    RootInFront(r.enc, root, Spread(behind));
    ParseExtends(env, PrologPhase, Initial(NO_DTD), [], "", chunks, last);
    assert "" + (Spread(all) + body) == Spread(all) + body;
    if DtdOf(r, before, id, l).Some? {
      var p := PrologParsed(r, before, name, id, l, between, body);
      AsidesBehind(env, p, behind);
      RootReads(env, p, texts, root, Spread(behind));
    } else {
      PrologRefused(r, before, name, id, l, between, body);
    }
  }

  lemma {:induction false} RootInFront(enc: Encoding, root: Item, rest: string)
    requires Right(enc, root) && root.Node?
    ensures var w := Written(root) + rest; |w| > 1 && w[0] == '<' && NmstrtCase(enc, w[1..]).Take?
  {
    hide Right; hide Written; hide NmstrtCase;
    RootStarts(enc, root);
    assert (Written(root) + rest)[1..] == Written(root)[1..] + rest;
    XmlScan.CharCasesStable(enc, Written(root)[1..], rest);
  }

  lemma {:induction false} InstanceAtStart(r: Reader, p: Prolog)
    requires p.at == Prolog0 || p.at == Prolog1
    requires !p.decl.hadExternalDoctype
    ensures Turn(r, p, InstanceStart, "") == StartInstance(p)
  {
    hide InEntity; hide InAttlist;
  }

  lemma {:induction false} NothingNamed(r: Reader, before: Lexemes)
    ensures Begun(r, before).Some? ==> Begun(r, before).value.entities == map[] && Whole(r.internal, Begun(r, before).value)
  {
  }

  /** The same without a document type declaration. */
  lemma {:induction false} InstanceReported(r: Reader, before: Lexemes, root: Item, behind: Lexemes, chunks: seq<string>, last: string)
    requires Utf8(r.enc) && Utf8(r.internal) && root.Node? && Right(r.enc, root) && Front(before) && Asides(behind) && AllFits(r.enc, before) && AllFits(r.enc, behind)
    requires Concat(chunks) + last == Spread(before) + (Written(root) + Spread(behind))
    ensures var p := ParseOf(r, NO_DTD, chunks, last);
            match Begun(r, before)
            case None => p.outcome.Failed?
            case Some(dtd) =>
              match Means(r.internal, dtd, map[], {}, root)
              case Wrong(code) => p.outcome == Failed(code)
              case Fine(e) => p.outcome.Stopped? && p.events == e
  {
    hide Utf8; hide Written; hide Means; hide Right; hide RoleLaws; hide In; hide XmlChunks.Parse; hide ProcessProlog; hide NmstrtCase; hide PrologTok; hide Spread; hide Fits; hide Turn; hide After;
    hide Begun; hide NO_DTD; hide Front; hide Asides;
    var env, body := ReaderEnv(r), Written(root) + Spread(behind);
    ReaderLaws(r);
    RootInFront(r.enc, root, Spread(behind));
    ParseExtends(env, PrologPhase, Initial(NO_DTD), [], "", chunks, last);
    assert "" + (Spread(before) + body) == Spread(before) + body;
    FrontTaken(r, before);
    BodyStarts(r.enc, body);
    if Begun(r, before).Some? {
      var p := After(r, Initial(NO_DTD), before).value;
      SpreadParsed(r, Initial(NO_DTD), before, body, true);
      LtExclaims(r.enc, body);
      InstanceAtStart(r, p);
      InstanceParsed(env, p, body, p, true);
      AsidesBehind(env, p, behind);
      NothingNamed(r, before);
      RootReads(env, p, map[], root, Spread(behind));
    } else {
      SpreadRefused(r, Initial(NO_DTD), before, body, true);
    }
  }
}
