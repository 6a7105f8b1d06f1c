/**
 Documents with one declaration, spelled out: what a declared entity and a
 declared value of an attribute come to in the events.
 */
module XmlInstances {
  import opened XmlScan
  import opened XmlTok
  import opened XmlValue
  import opened XmlContent
  import opened XmlChunks
  import opened XmlPool
  import opened XmlTree
  import opened XmlPrinted
  import opened XmlRoundTrip
  import opened XmlMarkup
  import opened XmlDefaults
  import opened XmlEntities
  import opened XmlLiterals
  import opened XmlProlog
  import opened XmlDocuments
  import opened XmlDeclarations
  import opened XmlDeclared
  import opened XmlDtd
  import opened XmlDoctype
  import opened XmlTags
  import opened XmlMeaning
  import opened XmlReports
  import XmlRole

  // ---- Tokens that fit ----

  lemma {:induction false} CapitalsRest(enc: Encoding, s: string)
    requires Utf8(enc) && forall i :: 0 <= i < |s| ==> Capital(s[i])
    ensures NameRest(enc, s)
    decreases |s|
  {
    hide Utf8; hide Capital;
    if s != "" {
      CapitalType(enc, s[0]);
      CapitalsRest(enc, s[1..]);
    }
  }

  lemma {:induction false} CapitalsName(enc: Encoding, s: string)
    requires Utf8(enc) && Capitals(s)
    ensures LegalName(enc, s)
  {
    hide Utf8; hide Capital; hide NameRest;
    CapitalType(enc, s[0]);
    CapitalsRest(enc, s[1..]);
  }

  lemma {:induction false} KeywordsCapital(s: string)
    requires s in KEYWORDS || s in {"CDATA", "DOCTYPE", "ENTITY", "ATTLIST", "IMPLIED", "REQUIRED", "FIXED"}
    ensures Capitals(s)
  {
  }

  lemma {:induction false} FitsBoth(enc: Encoding, a: Lexemes, b: Lexemes)
    requires AllFits(enc, a) && AllFits(enc, b)
    ensures AllFits(enc, a + b)
  {
    hide Fits;
  }

  lemma {:induction false} SpreadBoth(a: Lexemes, b: Lexemes)
    ensures Spread(a + b) == Spread(a) + Spread(b)
    decreases |a|
  {
    if a == [] {
      assert a + b == b;
    } else {
      assert (a + b)[1..] == a[1..] + b;
      SpreadBoth(a[1..], b);
      var s, rest, behind := a[0].text, Spread(a[1..]), Spread(b);
      assert s + (" " + (rest + behind)) == s + (" " + rest) + behind;
    }
  }

  lemma {:induction false} SpreadOne(x: XmlRole.Lexeme)
    ensures Spread([x]) == x.text + " "
  {
    assert Spread([x][1..]) == "";
  }

  lemma {:induction false} Three(a: XmlRole.Lexeme, b: XmlRole.Lexeme, c: XmlRole.Lexeme, rest: Lexemes)
    ensures [] + ([a, b] + ([] + ([c] + rest))) + [] == [a, b, c] + rest
  {
  }

  lemma {:induction false} DoctypeParts(e: string, l: seq<Declaration>)
    requires Fitting(l) && l != []
    ensures [] + Doctype(e, None, l) + [] ==
            [Open("<!DOCTYPE"), Word(e), XmlRole.Lexeme(OpenBracket, "[")] + (AllTokens(l) + [XmlRole.Lexeme(CloseBracket, "]"), CLOSE])
  {
    hide AllTokens; hide CLOSE; hide Open; hide Word;
    Three(Open("<!DOCTYPE"), Word(e), XmlRole.Lexeme(OpenBracket, "["), AllTokens(l) + [XmlRole.Lexeme(CloseBracket, "]"), CLOSE]);
  }

  /** Around the declarations of `<!DOCTYPE e [ ... ] >`. */
  lemma {:induction false} DoctypeSpread(enc: Encoding, e: string, l: seq<Declaration>)
    requires Utf8(enc) && LegalName(enc, e) && Fitting(l) && l != [] && AllFits(enc, AllTokens(l))
    ensures AllFits(enc, [] + Doctype(e, None, l) + [])
    ensures Spread([] + Doctype(e, None, l) + []) == "<!DOCTYPE " + e + " [ " + Spread(AllTokens(l)) + "] > "
  {
    hide Utf8; hide LegalName; hide Capitals; hide AllTokens; hide Spread; hide Doctype;
    var front := [Open("<!DOCTYPE"), Word(e), XmlRole.Lexeme(OpenBracket, "[")];
    var end := [XmlRole.Lexeme(CloseBracket, "]"), CLOSE];
    DoctypeParts(e, l);
    KeywordsCapital("DOCTYPE");
    assert "<!DOCTYPE"[2..] == "DOCTYPE";
    assert AllFits(enc, front) && AllFits(enc, end);
    FitsBoth(enc, AllTokens(l), end);
    FitsBoth(enc, front, AllTokens(l) + end);
    SpreadBoth(AllTokens(l), end);
    SpreadBoth(front, AllTokens(l) + end);
    SpreadThree(front);
    SpreadTwo(end);
  }

  lemma {:induction false} SpreadTwo(l: Lexemes)
    requires |l| == 2
    ensures Spread(l) == l[0].text + " " + l[1].text + " "
  {
    hide Spread;
    assert l == [l[0]] + [l[1]];
    SpreadBoth([l[0]], [l[1]]);
    SpreadOne(l[0]);
    SpreadOne(l[1]);
  }

  lemma {:induction false} SpreadThree(l: Lexemes)
    requires |l| == 3
    ensures Spread(l) == l[0].text + " " + l[1].text + " " + l[2].text + " "
  {
    hide Spread;
    assert l == [l[0]] + l[1..];
    SpreadBoth([l[0]], l[1..]);
    SpreadOne(l[0]);
    SpreadTwo(l[1..]);
  }

  // ---- Entities ----

  lemma {:induction false} NoCrLeft(s: string)
    ensures '\r' !in LineEnds(s)
    decreases |s|
  {
    if s != "" { NoCrLeft(if s[0] == '\r' && |s| > 1 && s[1] == '\n' then s[2..] else s[1..]); }
  }

  /** A text that may stand between quotes. */
  predicate Quotable(enc: Encoding, v: string, c: char) { LegalText(enc, v) && '&' !in v && c !in v && ('\"' in v ==> '\'' !in v) }

  lemma {:induction false} QuotableFits(enc: Encoding, v: string, c: char)
    requires Quotable(enc, v, c)
    ensures Fits(enc, Lit(v)) && LegalPieces(enc, [Chars(v)], c) && PrintPieces([Chars(v)]) == v
  {
    hide LegalText;
    var q := Quoted(v);
    assert q[1..|q| - 1] == v;
  }

  function OneEntity(n: string, v: string): (l: seq<Declaration>) ensures Fitting(l) && l != [] { [General(n, Literally([Chars(v)]))] }

  lemma {:induction false} EntityTokens(n: string, v: string)
    ensures AllTokens(OneEntity(n, v)) == [Open("<!ENTITY"), Word(n)] + [Lit(PrintPieces([Chars(v)])), CLOSE]
  {
    hide PrintPieces; hide Quoted;
    OneTokens(OneEntity(n, v)[0]);
  }

  lemma {:induction false} EntityFits(enc: Encoding, n: string, v: string)
    requires Utf8(enc) && LegalName(enc, n) && Quotable(enc, v, '%')
    ensures AllFits(enc, AllTokens(OneEntity(n, v)))
  {
    hide Utf8; hide LegalName; hide Capitals; hide Quotable; hide Quoted; hide Spread; hide PrintPieces; hide OneEntity; hide AllTokens;
    EntityTokens(n, v);
    QuotableFits(enc, v, '%');
    KeywordsCapital("ENTITY");
    assert "<!ENTITY"[2..] == "ENTITY";
    assert AllFits(enc, [Open("<!ENTITY"), Word(n)]);
    assert AllFits(enc, [Lit(v), CLOSE]);
    FitsBoth(enc, [Open("<!ENTITY"), Word(n)], [Lit(v), CLOSE]);
  }

  lemma {:induction false} EntitySpread(enc: Encoding, n: string, v: string)
    requires Quotable(enc, v, '%')
    ensures Spread(AllTokens(OneEntity(n, v))) == "<!ENTITY " + n + " " + Quoted(v) + " > "
  {
    hide Fits; hide Quotable; hide Quoted; hide Spread; hide PrintPieces; hide OneEntity; hide AllTokens;
    EntityTokens(n, v);
    QuotableFits(enc, v, '%');
    SpreadBoth([Open("<!ENTITY"), Word(n)], [Lit(v), CLOSE]);
    SpreadTwo([Open("<!ENTITY"), Word(n)]);
    SpreadTwo([Lit(v), CLOSE]);
  }

  lemma {:induction false} OneTokens(d: Declaration)
    requires d.Attributes? ==> AllFit(d.defs)
    ensures Fitting([d]) && AllTokens([d]) == Tokens(d)
  {
    assert AllTokens([d][1..]) == [] && Tokens(d) + [] == Tokens(d);
  }

  lemma {:induction false} EntityLegal(enc: Encoding, n: string, v: string)
    requires Quotable(enc, v, '%')
    ensures AllLegal(enc, OneEntity(n, v)) && Fitting(OneEntity(n, v))
  {
    hide LegalText;
    QuotableFits(enc, v, '%');
  }

  /** An element with one item in it. */
  function Holding(a: string, i: Item): Item { Node(StartTag(a, [], "", false), [i], "") }

  /** An empty element. */
  function Empty(e: string): Item { Node(StartTag(e, [], "", true), [], "") }

  lemma {:induction false} HoldingWritten(a: string, i: Item)
    ensures Written(Holding(a, i)) == "<" + (a + ">") + (Written(i) + ("</" + (a + ">")))
  {
    assert AllWritten([i]) == Written(i) by { assert AllWritten([i][1..]) == "" && Written(i) + "" == Written(i); }
    assert AttsText([]) == "" && "" + ">" == ">" && "" + ("" + ">") == ">";
  }

  lemma {:induction false} MentionRight(enc: Encoding, a: string, n: string)
    requires LegalName(enc, a) && LegalName(enc, n)
    ensures Holding(a, Mention(n)).Node? && Right(enc, Holding(a, Mention(n))) && Written(Holding(a, Mention(n))) == "<" + (a + ">") + ("&" + (n + ";") + ("</" + (a + ">")))
  {
    hide LegalName;
    HoldingWritten(a, Mention(n));
    var l := [Mention(n)];
    assert AllRight(enc, l[1..]) && Right(enc, l[0]);
  }

  /** The DTD, in which the one declaration is known. */
  lemma {:induction false} EntityDeclared(r: Reader, n: string, v: string, texts: Texts)
    requires texts == map[n := [Plain(LineEnds(v))]] && PlainText(r.internal, LineEnds(v))
    ensures Declares(r.internal, NO_DTD, None, OneEntity(n, v)) == Some(if n in FIVE then NO_DTD else NO_DTD.(entities := map[n := Internal(LineEnds(v))]))
    ensures Backed(r.internal, if n in FIVE then NO_DTD else NO_DTD.(entities := map[n := Internal(LineEnds(v))]), texts)
  {
    hide PlainText; hide LineEnds; hide FIVE;
    var t := LineEnds(v);
    assert Replacement([Chars(v)]) == t by { assert Replacement([Chars(v)][1..]) == "" && t + "" == t; }
    assert AllDeclared(r.internal, DtdAfter(r.internal, NO_DTD, OneEntity(n, v)[0]).value, OneEntity(n, v)[1..]) == DtdAfter(r.internal, NO_DTD, OneEntity(n, v)[0]);
    assert AllWritten([Plain(t)]) == t by { assert AllWritten([Plain(t)][1..]) == "" && t + "" == t; }
    assert AllRight(r.internal, [Plain(t)]) by { assert AllRight(r.internal, [Plain(t)][1..]); }
  }

  lemma {:induction false} AloneMeans(internal: Encoding, dtd: Dtd, texts: Texts, open: set<string>, i: Item)
    ensures AllMean(internal, dtd, texts, open, [i]) == Means(internal, dtd, texts, open, i)
  {
    hide Means;
    var m := Means(internal, dtd, texts, open, i);
    assert AllMean(internal, dtd, texts, open, [i][1..]) == Fine([]);
    if m.Fine? { assert m.events + [] == m.events; }
  }

  lemma {:induction false} EntityMeans(internal: Encoding, dtd: Dtd, texts: Texts, a: string, n: string, t: string)
    requires texts == map[n := [Plain(t)]] && '\r' !in t
    requires dtd == if n in FIVE then NO_DTD else NO_DTD.(entities := map[n := Internal(t)])
    ensures Means(internal, dtd, texts, {}, Holding(a, Mention(n))) ==
            Fine([StartElement(a, [])] + CharBytes(if n in FIVE then [FIVE[n]] else t) + [EndElement(a)])
  {
    hide FIVE; hide LineEnds;
    AloneMeans(internal, dtd, texts, {}, Mention(n));
    if n in FIVE {
      assert CharBytes([FIVE[n]]) == [CharByte(FIVE[n])];
    } else {
      AloneMeans(internal, dtd, texts, {} + {n}, Plain(t));
      LineEndsSame(t);
    }
    assert StartMeans(internal, dtd, {}, StartTag(a, [], "", false)) == AttsOutcome.Stored([]);
  }

  /** `<!ENTITY n "v">` makes `n` stand for `v`, unless it is one of the five: for content without markup, `&n;` is reported as it. */
  lemma {:induction false} EntityReported(r: Reader, a: string, n: string, v: string, chunks: seq<string>, last: string)
    requires Utf8(r.enc) && r.enc.byteType('\r') == CR && Utf8(r.internal) && LegalName(r.enc, a) && LegalName(r.enc, n)
    requires Quotable(r.enc, v, '%') && PlainText(r.internal, LineEnds(v))
    requires Concat(chunks) + last == "<!DOCTYPE " + a + " [ " + ("<!ENTITY " + n + " " + Quoted(v) + " > ") + "] > " + ("<" + (a + ">") + ("&" + (n + ";") + ("</" + (a + ">"))))
    ensures var p := ParseOf(r, NO_DTD, chunks, last);
            && p.outcome.Stopped?
            && p.events == [StartElement(a, [])] + CharBytes(if n in FIVE then [FIVE[n]] else LineEnds(v)) + [EndElement(a)]
  {
    hide *;
    var root := Holding(a, Mention(n));
    var texts: Texts := map[n := [Plain(LineEnds(v))]];
    EntityDocument(r, a, n, v);
    NothingInFront(r, OneEntity(n, v));
    EntityDeclared(r, n, v, texts);
    var dtd := Declares(r.internal, NO_DTD, None, OneEntity(n, v)).value;
    KnownSame(dtd);
    DocumentReported(r, [], a, None, OneEntity(n, v), [], texts, root, [], chunks, last);
    NoCrLeft(v);
    EntityMeans(r.internal, dtd, texts, a, n, LineEnds(v));
  }

  lemma {:induction false} EntityDocument(r: Reader, a: string, n: string, v: string)
    requires Utf8(r.enc) && r.enc.byteType('\r') == CR && Utf8(r.internal) && LegalName(r.enc, a) && LegalName(r.enc, n) && Quotable(r.enc, v, '%')
    ensures Proper(r, [], a, None, OneEntity(n, v), [], Holding(a, Mention(n)), [])
    ensures Document([], a, None, OneEntity(n, v), [], Holding(a, Mention(n)), []) ==
            "<!DOCTYPE " + a + " [ " + ("<!ENTITY " + n + " " + Quoted(v) + " > ") + "] > " + ("<" + (a + ">") + ("&" + (n + ";") + ("</" + (a + ">"))))
  {
    hide *;
    EntityFits(r.enc, n, v);
    EntitySpread(r.enc, n, v);
    EntityLegal(r.enc, n, v);
    DoctypeSpread(r.enc, a, OneEntity(n, v));
    MentionRight(r.enc, a, n);
    OneProper(r, a, OneEntity(n, v), Holding(a, Mention(n)));
  }

  lemma {:induction false} NothingInFront(r: Reader, l: seq<Declaration>)
    ensures DtdOf(r, [], None, l) == Declares(r.internal, NO_DTD, None, l)
  {
  }

  lemma {:induction false} KnownSame(dtd: Dtd)
    ensures Known(dtd, None) == dtd
  {
  }

  lemma {:induction false} OneProper(r: Reader, a: string, l: seq<Declaration>, root: Item)
    requires Utf8(r.enc) && r.enc.byteType('\r') == CR && Utf8(r.internal) && AllLegal(r.enc, l) && Fitting(l)
    requires AllFits(r.enc, [] + Doctype(a, None, l) + []) && root.Node? && Right(r.enc, root)
    ensures Proper(r, [], a, None, l, [], root, [])
    ensures Document([], a, None, l, [], root, []) == Spread([] + Doctype(a, None, l) + []) + Written(root)
  {
    hide Utf8; hide LegalDeclaration; hide Fits; hide Right; hide Doctype; hide Written;
    assert Written(root) + Spread([]) == Written(root);
  }

  // ---- Values of attributes ----

  function AttributesOf(e: string, defs: seq<AttDef>): (l: seq<Declaration>)
    requires AllFit(defs)
    ensures Fitting(l) && l != []
  {
    [Attributes(e, defs)]
  }

  lemma {:induction false} AttlistFits(enc: Encoding, e: string, defs: seq<AttDef>)
    requires Utf8(enc) && LegalName(enc, e) && AllFit(defs) && AllFits(enc, AttsTokens(defs))
    ensures AllFits(enc, AllTokens(AttributesOf(e, defs)))
    ensures Spread(AllTokens(AttributesOf(e, defs))) == "<!ATTLIST " + e + " " + Spread(AttsTokens(defs))
  {
    hide Utf8; hide LegalName; hide Capitals; hide Spread; hide AllTokens; hide AttsTokens; hide AllFit;
    var front := [Open("<!ATTLIST"), Word(e)];
    OneTokens(Attributes(e, defs));
    KeywordsCapital("ATTLIST");
    assert "<!ATTLIST"[2..] == "ATTLIST";
    assert AllFits(enc, front);
    FitsBoth(enc, front, AttsTokens(defs));
    SpreadBoth(front, AttsTokens(defs));
    SpreadTwo(front);
  }

  lemma {:induction false} EmptyRight(enc: Encoding, e: string)
    requires LegalName(enc, e)
    ensures Empty(e).Node? && Right(enc, Empty(e)) && Written(Empty(e)) == "<" + (e + "/>")
  {
    hide LegalName;
    assert AttsText([]) == "" && "" + ("" + "/>") == "/>";
    assert "<" + (e + "/>") + "" == "<" + (e + "/>");
  }

  lemma {:induction false} AttlistLegal(enc: Encoding, e: string, defs: seq<AttDef>)
    requires AllFit(defs) && forall i :: 0 <= i < |defs| ==> LegalAtt(enc, defs[i])
    ensures AllLegal(enc, AttributesOf(e, defs))
  {
    hide LegalAtt; hide AllFit;
  }

  lemma {:induction false} AttlistDeclares(internal: Encoding, e: string, defs: seq<AttDef>)
    requires AllFit(defs)
    ensures Declares(internal, NO_DTD, None, AttributesOf(e, defs)) == WithDefs(internal, NO_DTD, e, defs)
  {
    hide WithDefs; hide AllFit;
    var l := AttributesOf(e, defs);
    var dtd := DtdAfter(internal, NO_DTD, l[0]);
    if dtd.Some? { assert AllDeclared(internal, dtd.value, l[1..]) == dtd; }
  }

  lemma {:induction false} DefsKeep(internal: Encoding, dtd: Dtd, e: string, defs: seq<AttDef>)
    ensures var dtd' := WithDefs(internal, dtd, e, defs); dtd'.Some? ==> dtd'.value.entities == dtd.entities
    decreases |defs|
  {
    hide Meaning; hide Typed;
    if defs != [] {
      var dtd' := WithDef(internal, dtd, e, defs[0]);
      if dtd'.Some? { DefsKeep(internal, dtd'.value, e, defs[1..]); }
    }
  }

  lemma {:induction false} EmptyRootMeans(internal: Encoding, dtd: Dtd, e: string)
    ensures Means(internal, dtd, map[], {}, Empty(e)) == Fine([StartElement(e, AddDefaults(Defaults(dtd, e), [])), EndElement(e)])
  {
    EmptyMeans(internal, dtd, map[], {}, Empty(e), AddDefaults(Defaults(dtd, e), []));
  }

  /** `<e/>` behind any attribute definitions for `e` reports what they declare. */
  lemma {:induction false} AttlistReported(r: Reader, e: string, defs: seq<AttDef>, chunks: seq<string>, last: string)
    requires Utf8(r.enc) && r.enc.byteType('\r') == CR && Utf8(r.internal) && LegalName(r.enc, e) && AllFit(defs) && AllFits(r.enc, AttsTokens(defs))
    requires forall i :: 0 <= i < |defs| ==> LegalAtt(r.enc, defs[i])
    requires Concat(chunks) + last == "<!DOCTYPE " + e + " [ " + ("<!ATTLIST " + e + " " + Spread(AttsTokens(defs))) + "] > " + ("<" + (e + "/>"))
    ensures var p := ParseOf(r, NO_DTD, chunks, last);
            match WithDefs(r.internal, NO_DTD, e, defs)
            case None => p.outcome.Failed?
            case Some(dtd) => p.outcome.Stopped? && p.events == [StartElement(e, AddDefaults(Defaults(dtd, e), [])), EndElement(e)]
  {
    hide *;
    var l, root := AttributesOf(e, defs), Empty(e);
    AttlistFits(r.enc, e, defs);
    AttlistLegal(r.enc, e, defs);
    DoctypeSpread(r.enc, e, l);
    EmptyRight(r.enc, e);
    OneProper(r, e, l, root);
    AttlistDeclares(r.internal, e, defs);
    NoEntities(r.internal, e, defs);
    NothingInFront(r, l);
    DocumentReported(r, [], e, None, l, [], map[], root, [], chunks, last);
    if WithDefs(r.internal, NO_DTD, e, defs).Some? {
      KnownSame(WithDefs(r.internal, NO_DTD, e, defs).value);
      EmptyRootMeans(r.internal, WithDefs(r.internal, NO_DTD, e, defs).value, e);
    }
  }

  lemma {:induction false} NoEntities(internal: Encoding, e: string, defs: seq<AttDef>)
    ensures var dtd := WithDefs(internal, NO_DTD, e, defs); dtd.Some? ==> Backed(internal, Known(dtd.value, None), map[])
  {
    hide WithDefs;
    DefsKeep(internal, NO_DTD, e, defs);
  }

  predicate TypeWord(w: string) { w == "CDATA" || w in KEYWORDS }

  function TypeOf(w: string): AttType { if w == "CDATA" then CdataType else Keyword(w) }

  /** How a definition goes on behind the type. */
  function DefaultText(d: AttDefault): string
  {
    match d
    case Implied => "#IMPLIED "
    case Required => "#REQUIRED "
    case Fixed(value) => "#FIXED " + Quoted(PrintPieces(value)) + " "
    case Given(value) => Quoted(PrintPieces(value)) + " "
  }

  function GivenLiteral(d: AttDefault): Option<seq<Piece>> { match d case Fixed(value) => Some(value) case Given(value) => Some(value) case _ => None }

  /** A value, if there is one, without references. */
  predicate Simple(enc: Encoding, d: AttDefault)
  {
    match GivenLiteral(d) case None => true case Some(value) => |value| == 1 && value[0].Chars? && Quotable(enc, value[0].text, '<')
  }

  lemma {:induction false} SimpleFits(enc: Encoding, value: seq<Piece>)
    requires |value| == 1 && value[0].Chars? && Quotable(enc, value[0].text, '<')
    ensures Fits(enc, Lit(PrintPieces(value))) && LegalPieces(enc, value, '<')
  {
    hide Fits; hide Quotable; hide LegalPieces; hide PrintPieces; hide Quoted;
    QuotableFits(enc, value[0].text, '<');
    assert value == [Chars(value[0].text)];
  }

  lemma {:induction false} DefaultFits(enc: Encoding, d: AttDefault)
    requires Utf8(enc) && Simple(enc, d)
    ensures AllFits(enc, DefaultTokens(d)) && Spread(DefaultTokens(d)) == DefaultText(d)
  {
    hide Utf8; hide LegalName; hide Capitals; hide Quotable; hide LegalPieces; hide PrintPieces; hide Quoted; hide Spread; hide IsLiteral;
    match d
    case Implied =>
      PoundFits(enc, "IMPLIED");
      SpreadOne(DefaultTokens(d)[0]);
    case Required =>
      PoundFits(enc, "REQUIRED");
      SpreadOne(DefaultTokens(d)[0]);
    case Fixed(value) =>
      PoundFits(enc, "FIXED");
      SimpleFits(enc, value);
      SpreadTwo(DefaultTokens(d));
    case Given(value) =>
      SimpleFits(enc, value);
      SpreadOne(DefaultTokens(d)[0]);
  }

  lemma {:induction false} PoundFits(enc: Encoding, s: string)
    requires Utf8(enc) && s in {"IMPLIED", "REQUIRED", "FIXED"}
    ensures Fits(enc, XmlRole.Lexeme(PoundName, "#" + s))
  {
    hide Utf8; hide LegalName; hide Capitals;
    KeywordsCapital(s);
    CapitalsName(enc, s);
    assert ("#" + s)[1..] == s;
  }

  lemma {:induction false} AttFits(enc: Encoding, a: string, w: string, d: AttDefault)
    requires Utf8(enc) && LegalName(enc, a) && TypeWord(w) && Simple(enc, d)
    ensures TypeFits(TypeOf(w)) && AllFits(enc, AttTokens(AttDef(a, TypeOf(w), d)))
    ensures Spread(AttTokens(AttDef(a, TypeOf(w), d))) == a + " " + w + " " + DefaultText(d)
  {
    hide Utf8; hide LegalName; hide Capitals; hide Simple; hide DefaultTokens; hide DefaultText; hide Spread; hide KEYWORDS;
    KeywordsCapital(w);
    CapitalsName(enc, w);
    DefaultFits(enc, d);
    var front := [Word(a), Word(w)];
    assert AttTokens(AttDef(a, TypeOf(w), d)) == front + DefaultTokens(d);
    assert AllFits(enc, front);
    FitsBoth(enc, front, DefaultTokens(d));
    SpreadBoth(front, DefaultTokens(d));
    SpreadTwo(front);
  }

  lemma {:induction false} SimpleLegal(enc: Encoding, a: string, w: string, d: AttDefault)
    requires TypeWord(w) && Simple(enc, d)
    ensures LegalAtt(enc, AttDef(a, TypeOf(w), d))
  {
    hide Quotable; hide LegalPieces; hide KEYWORDS;
    match d
    case Fixed(value) => SimpleFits(enc, value);
    case Given(value) => SimpleFits(enc, value);
    case _ =>
  }

  /** What a simple definition comes to. */
  function ValueOf(w: string, d: AttDefault): Option<string>
  {
    match GivenLiteral(d) case None => None case Some(value) => if |value| == 1 && value[0].Chars? then Some(Typed(w == "CDATA", Blanks(value[0].text))) else None
  }

  function Stored(a: string, w: string, d: AttDefault): DefaultAtt
  {
    match ValueOf(w, d) case None => DefaultAtt(a, w == "CDATA", "", false) case Some(v) => DefaultAtt(a, w == "CDATA", v, true)
  }

  lemma {:induction false} SimpleDef(internal: Encoding, enc: Encoding, dtd: Dtd, e: string, a: string, w: string, d: AttDefault)
    requires Simple(enc, d) && TypeWord(w)
    ensures WithDef(internal, dtd, e, AttDef(a, TypeOf(w), d)) ==
            Some(WithAtt(dtd, e, Stored(a, w, d)))
  {
    hide Quotable; hide Typed; hide Blanks; hide KEYWORDS; hide WithAtt;
    match d
    case Fixed(value) => CharsMean(internal, dtd, value);
    case Given(value) => CharsMean(internal, dtd, value);
    case _ =>
  }

  lemma {:induction false} CharsMean(internal: Encoding, dtd: Dtd, value: seq<Piece>)
    requires |value| == 1 && value[0].Chars?
    ensures Meaning(internal, dtd, {}, value) == Value(Blanks(value[0].text))
  {
    hide Blanks;
    assert Meaning(internal, dtd, {}, value[1..]) == Value("");
    assert Blanks(value[0].text) + "" == Blanks(value[0].text);
  }

  /** `<!ATTLIST e a w "v">`, with #FIXED or not: the element carries the value where it does not have the attribute, and none
      for #IMPLIED and #REQUIRED. */
  lemma {:induction false} DefaultReported(r: Reader, e: string, a: string, w: string, d: AttDefault, chunks: seq<string>, last: string)
    requires Utf8(r.enc) && r.enc.byteType('\r') == CR && Utf8(r.internal) && LegalName(r.enc, e) && LegalName(r.enc, a) && TypeWord(w) && Simple(r.enc, d)
    requires Concat(chunks) + last == "<!DOCTYPE " + e + " [ " + ("<!ATTLIST " + e + " " + (a + " " + w + " " + DefaultText(d) + "> ")) + "] > " + ("<" + (e + "/>"))
    ensures var p := ParseOf(r, NO_DTD, chunks, last);
            && p.outcome.Stopped?
            && p.events == [StartElement(e, match ValueOf(w, d) case None => [] case Some(v) => [(a, v)]), EndElement(e)]
  {
    hide *;
    OneAtt(r, e, a, w, d);
    AttlistReported(r, e, [AttDef(a, TypeOf(w), d)], chunks, last);
  }

  lemma {:induction false} OneAtt(r: Reader, e: string, a: string, w: string, d: AttDefault)
    requires Utf8(r.enc) && LegalName(r.enc, a) && TypeWord(w) && Simple(r.enc, d)
    ensures var defs := [AttDef(a, TypeOf(w), d)];
            && AllFit(defs) && AllFits(r.enc, AttsTokens(defs)) && (forall i :: 0 <= i < |defs| ==> LegalAtt(r.enc, defs[i]))
            && Spread(AttsTokens(defs)) == a + " " + w + " " + DefaultText(d) + "> "
            && match WithDefs(r.internal, NO_DTD, e, defs)
               case None => false
               case Some(dtd) => AddDefaults(Defaults(dtd, e), []) == match ValueOf(w, d) case None => [] case Some(v) => [(a, v)]
  {
    hide Utf8; hide LegalName; hide Capitals; hide Simple; hide AttTokens; hide DefaultText; hide Spread; hide LegalAtt; hide TypeWord; hide WithDef; hide ValueOf; hide TypeOf; hide Fits;
    var def := AttDef(a, TypeOf(w), d);
    AttFits(r.enc, a, w, d);
    SimpleLegal(r.enc, a, w, d);
    SimpleDef(r.internal, r.enc, NO_DTD, e, a, w, d);
    assert AttsTokens([def]) == AttTokens(def) + [CLOSE] by { assert AttsTokens([def][1..]) == [CLOSE]; }
    CloseFits(r.enc);
    FitsBoth(r.enc, AttTokens(def), [CLOSE]);
    SpreadBoth(AttTokens(def), [CLOSE]);
    SpreadOne(CLOSE);
    OneDefault(NO_DTD, e, Stored(a, w, d));
    assert WithDefs(r.internal, NO_DTD, e, [def]) == WithDef(r.internal, NO_DTD, e, def) by { assert [def][1..] == []; }
  }

  lemma {:induction false} OneDefault(dtd: Dtd, e: string, att: DefaultAtt)
    requires dtd.elementAtts == map[] && dtd.complete
    ensures Defaults(WithAtt(dtd, e, att), e) == [att]
    ensures AddDefaults([att], []) == if att.hasValue then [(att.name, att.value)] else []
  {
    assert [att][1..] == [];
  }

  lemma {:induction false} CloseFits(enc: Encoding)
    ensures AllFits(enc, [CLOSE])
  {
  }

  /** The value of a second declaration is reported where the first has none, against section 3.3 of XML 1.0. */
  lemma {:induction false} LaterReported(r: Reader, e: string, a: string, w: string, v: string, chunks: seq<string>, last: string)
    requires Utf8(r.enc) && r.enc.byteType('\r') == CR && Utf8(r.internal) && LegalName(r.enc, e) && LegalName(r.enc, a) && TypeWord(w) && Quotable(r.enc, v, '<')
    requires Concat(chunks) + last == "<!DOCTYPE " + e + " [ " + ("<!ATTLIST " + e + " " + (a + " " + w + " " + "#IMPLIED " + (a + " " + w + " " + (Quoted(v) + " ") + "> "))) + "] > " + ("<" + (e + "/>"))
    ensures var p := ParseOf(r, NO_DTD, chunks, last);
            && p.outcome.Stopped?
            && p.events == [StartElement(e, [(a, Typed(w == "CDATA", Blanks(v)))]), EndElement(e)]
  {
    hide *;
    TwoAtts(r, e, a, w, v);
    AttlistReported(r, e, [AttDef(a, TypeOf(w), Implied), AttDef(a, TypeOf(w), Given([Chars(v)]))], chunks, last);
  }

  lemma {:induction false} TwoAtts(r: Reader, e: string, a: string, w: string, v: string)
    requires Utf8(r.enc) && LegalName(r.enc, a) && TypeWord(w) && Quotable(r.enc, v, '<')
    ensures var defs := [AttDef(a, TypeOf(w), Implied), AttDef(a, TypeOf(w), Given([Chars(v)]))];
            && AllFit(defs) && AllFits(r.enc, AttsTokens(defs)) && (forall i :: 0 <= i < |defs| ==> LegalAtt(r.enc, defs[i]))
            && Spread(AttsTokens(defs)) == a + " " + w + " " + "#IMPLIED " + (a + " " + w + " " + (Quoted(v) + " ") + "> ")
            && match WithDefs(r.internal, NO_DTD, e, defs)
               case None => false
               case Some(dtd) => AddDefaults(Defaults(dtd, e), []) == [(a, Typed(w == "CDATA", Blanks(v)))]
  {
    hide Utf8; hide LegalName; hide Capitals; hide Quotable; hide AttTokens; hide Spread; hide LegalAtt; hide TypeWord; hide WithDef; hide TypeOf; hide Fits; hide Quoted; hide LegalPieces;
    hide PrintPieces; hide Typed; hide Blanks;
    var none, some := AttDef(a, TypeOf(w), Implied), AttDef(a, TypeOf(w), Given([Chars(v)]));
    AttFits(r.enc, a, w, none.default_);
    OneAtt(r, e, a, w, some.default_);
    SimpleLegal(r.enc, a, w, none.default_);
    assert LegalAtt(r.enc, [some][0]);
    QuotableFits(r.enc, v, '<');
    assert AttsTokens([none, some]) == AttTokens(none) + AttsTokens([some]) by { assert [none, some][1..] == [some]; }
    FitsBoth(r.enc, AttTokens(none), AttsTokens([some]));
    SpreadBoth(AttTokens(none), AttsTokens([some]));
    TwoDefs(r, e, a, w, v);
  }

  lemma {:induction false} TwoDefs(r: Reader, e: string, a: string, w: string, v: string)
    requires TypeWord(w) && Quotable(r.enc, v, '<')
    ensures match WithDefs(r.internal, NO_DTD, e, [AttDef(a, TypeOf(w), Implied), AttDef(a, TypeOf(w), Given([Chars(v)]))])
            case None => false
            case Some(dtd) => AddDefaults(Defaults(dtd, e), []) == [(a, Typed(w == "CDATA", Blanks(v)))]
  {
    hide Quotable; hide TypeWord; hide WithDef; hide TypeOf; hide Typed; hide Blanks;
    var none, some := AttDef(a, TypeOf(w), Implied), AttDef(a, TypeOf(w), Given([Chars(v)]));
    SimpleDef(r.internal, r.enc, NO_DTD, e, a, w, none.default_);
    var dtd := WithDef(r.internal, NO_DTD, e, none).value;
    SimpleDef(r.internal, r.enc, dtd, e, a, w, some.default_);
    assert [none, some][1..] == [some] && [some][1..] == [];
    assert WithDefs(r.internal, dtd, e, [some]) == WithDef(r.internal, dtd, e, some);
    var l := Defaults(WithDef(r.internal, dtd, e, some).value, e);
    assert l == [DefaultAtt(a, w == "CDATA", "", false), DefaultAtt(a, w == "CDATA", Typed(w == "CDATA", Blanks(v)), true)];
    assert WithDefs(r.internal, NO_DTD, e, [none, some]) == WithDef(r.internal, dtd, e, some);
    SecondAdded(l[0], l[1]);
  }

  lemma {:induction false} SecondAdded(first: DefaultAtt, second: DefaultAtt)
    requires !first.hasValue && second.hasValue
    ensures AddDefaults([first, second], []) == [(second.name, second.value)]
  {
    assert [first, second][1..] == [second] && [second][1..] == [];
    assert AddDefaults([second], []) == AddDefaults([], [(second.name, second.value)]);
  }
}
