/**
 Tags, however they are written (productions 40 to 44 of XML 1.0): white space
 anywhere it may be, either quote, and values with references.  scanAtts, getAtts
 and storeAtts (libjabber/xmltok_impl_c.h, libjabber/xmlparse.c) give the
 attributes the tag means.
 */
module XmlTags {
  import opened XmlScan
  import opened XmlTok
  import opened XmlAtts
  import opened XmlValue
  import opened XmlContent
  import opened XmlChunks
  import opened XmlPool
  import opened XmlTree
  import opened XmlPrinted
  import opened XmlNormal
  import opened XmlRoundTrip
  import opened XmlCharRefs
  import opened XmlEntities
  import opened XmlLiterals
  import XmlDefaults
  import XmlFormed

  // ---- How tags are written ----

  /** An attribute: white space in front, its name, white space on both sides of the "=", and its value in quotes. */
  datatype Spelled = Spelled(space: string, name: string, left: string, right: string, quote: char, value: seq<Piece>)

  datatype StartTag = StartTag(name: string, atts: seq<Spelled>, space: string, empty: bool)

  function ValueText(a: Spelled): string { [a.quote] + (PrintPieces(a.value) + [a.quote]) }

  function AttText(a: Spelled): string { a.space + (a.name + (a.left + ("=" + (a.right + ValueText(a))))) }

  function AttsText(l: seq<Spelled>): string { if l == [] then "" else AttText(l[0]) + AttsText(l[1..]) }

  function StartText(t: StartTag): string { "<" + (t.name + (AttsText(t.atts) + (t.space + TagTail(t.empty)))) }

  function EndText(name: string, space: string): string { "</" + (name + (space + ">")) }

  predicate Whites(s: string) { forall i :: 0 <= i < |s| ==> Blank(s[i]) }

  predicate Unquoted(l: seq<Piece>, quote: char) { forall i :: 0 <= i < |l| && l[i].Chars? ==> quote !in l[i].text }

  ghost predicate LegalSpelled(enc: Encoding, a: Spelled)
  {
    && a.space != "" && Whites(a.space) && Whites(a.left) && Whites(a.right) && LegalName(enc, a.name)
    && (a.quote == '\"' || a.quote == '\'') && LegalPieces(enc, a.value, '<') && Unquoted(a.value, a.quote)
  }

  ghost predicate LegalStart(enc: Encoding, t: StartTag)
  {
    LegalName(enc, t.name) && Whites(t.space) && forall i :: 0 <= i < |t.atts| ==> LegalSpelled(enc, t.atts[i])
  }

  // ---- White space ----

  predicate SpaceLoop(q: State) { q.TagSpace? || q.AttSpace? || q.AttNameSpace? || q.AttEq? || q.EndTagSpace? }

  predicate MayBeSpaced(q: State) { q.TagName? || q.AttValueEnd? || q.AttName? || q.EndTagName? }

  function Spaced(q: State): State
  {
    match q case TagName => TagSpace case AttValueEnd => AttSpace case AttName => AttNameSpace case EndTagName => EndTagSpace case _ => q
  }

  lemma {:induction false} BlankIs(enc: Encoding, w: string)
    requires Utf8(enc) && w != "" && Blank(w[0])
    ensures XmlScan.Space(enc.byteType(w[0])) && NameCase(enc, w) == NotListed && NmstrtCase(enc, w) == NotListed
  {
    if w[0] != '\r' { assert enc.byteType(w[0]) == Utf8Type(w[0]); }
  }

  lemma {:induction false} BlankMoves(enc: Encoding, q: State, w: string)
    requires Utf8(enc) && w != "" && Blank(w[0]) && (SpaceLoop(q) || MayBeSpaced(q))
    ensures Step(enc, q, w) == Go(1, Spaced(q))
  {
    hide Step; hide NameCase; hide NmstrtCase; hide Blank; hide Utf8; hide InvalidCase;
    StepBy(enc, q, w);
    BlankIs(enc, w);
  }

  lemma {:induction false} BlanksScan(enc: Encoding, s: string, q: State, p: nat, part: string, name: nat, value: nat)
    requires Utf8(enc) && SpaceLoop(q) && At(s, p, part) && Whites(part)
    ensures p + |part| <= |s| && Leads(enc, s, q, p, name, value, q, p + |part|, name, value)
    decreases |part|
  {
    hide Step; hide Scan; hide Passed; hide Utf8; hide Blank;
    if part != "" {
      AtFirst(s, p, part);
      BlankMoves(enc, q, s[p..]);
      Goes(enc, s, q, p, name, value);
      BlanksScan(enc, s, q, p + 1, part[1..], name, value);
    }
  }

  /** Some white space behind a name or value. */
  lemma {:induction false} SpaceScan(enc: Encoding, s: string, q: State, p: nat, part: string, name: nat, value: nat)
    requires Utf8(enc) && MayBeSpaced(q) && At(s, p, part) && Whites(part) && part != ""
    ensures p + |part| <= |s| && Leads(enc, s, q, p, name, value, Spaced(q), p + |part|, name, value)
  {
    hide Step; hide Scan; hide Passed; hide Utf8; hide Blank;
    AtFirst(s, p, part);
    BlankMoves(enc, q, s[p..]);
    Goes(enc, s, q, p, name, value);
    BlanksScan(enc, s, Spaced(q), p + 1, part[1..], name, value);
  }

  // ---- Values ----

  function Mark(quote: char): ByteType { if quote == '\"' then QUOT else APOS }

  predicate IsQuote(c: char) { c == '\"' || c == '\'' }

  lemma {:induction false} QuoteTypes(enc: Encoding, c: char, quote: char)
    requires Utf8(enc) && IsQuote(quote)
    ensures enc.byteType(c) == Mark(quote) <==> c == quote
    ensures (enc.byteType(c) == AMP <==> c == '&') && (enc.byteType(c) == LT <==> c == '<') && (enc.byteType(c) == EQUALS <==> c == '=') && (enc.byteType(c) == SEMI <==> c == ';')
  {
    if c != '\r' { assert enc.byteType(c) == Utf8Type(c); CharTypes(c); }
  }

  lemma {:induction false} CharTypes(c: char)
    ensures (Utf8Type(c) == QUOT <==> c == '\"') && (Utf8Type(c) == APOS <==> c == '\'') && (Utf8Type(c) == AMP <==> c == '&') && (Utf8Type(c) == LT <==> c == '<')
    ensures (Utf8Type(c) == EQUALS <==> c == '=') && (Utf8Type(c) == SEMI <==> c == ';')
  {
  }

  lemma {:induction false} InQuotesMoves(enc: Encoding, quote: char, w: string)
    requires Utf8(enc) && IsQuote(quote) && w != ""
    ensures w[0] == quote ==> Step(enc, AttValue(Mark(quote)), w) == Go(1, AttValueEnd)
    ensures w[0] == '&' ==> Step(enc, AttValue(Mark(quote)), w) == Go(1, RefOpen(InValue(Mark(quote))))
    ensures w[0] != '&' && w[0] != '<' && w[0] != quote && LegalChar(enc, w) > 0 ==> Step(enc, AttValue(Mark(quote)), w) == Go(LegalChar(enc, w), AttValue(Mark(quote)))
  {
    hide Step; hide Utf8;
    StepBy(enc, AttValue(Mark(quote)), w);
    QuoteTypes(enc, w[0], quote);
    NoCase(enc, w, quote);
  }

  lemma {:induction false} NoCase(enc: Encoding, w: string, quote: char)
    requires Utf8(enc) && w != "" && IsQuote(quote)
    ensures w[0] == quote || w[0] == '&' ==> InvalidCase(enc, w) == NotListed
    ensures LegalChar(enc, w) > 0 ==> InvalidCase(enc, w) == Take(LegalChar(enc, w)) || (InvalidCase(enc, w) == NotListed && LegalChar(enc, w) == 1)
  {
    if w[0] != '\r' { assert enc.byteType(w[0]) == Utf8Type(w[0]); }
  }

  lemma {:induction false} CharsScan(enc: Encoding, s: string, p: nat, quote: char, text: string, name: nat, value: nat)
    requires Utf8(enc) && IsQuote(quote) && LegalText(enc, text) && '&' !in text && '<' !in text && quote !in text && At(s, p, text)
    ensures var q := AttValue(Mark(quote)); p + |text| <= |s| && Leads(enc, s, q, p, name, value, q, p + |text|, name, value)
    decreases |text|
  {
    hide Step; hide Scan; hide Passed; hide LegalChar; hide Utf8; hide At;
    AtEnds(s, p, text);
    if text != "" {
      var n := LegalChar(enc, text);
      LegalIs(enc, text);
      AtFirst(s, p, text);
      LegalCharStable(enc, text, s[p + |text|..]);
      InQuotesMoves(enc, quote, s[p..]);
      Goes(enc, s, AttValue(Mark(quote)), p, name, value);
      assert text == text[..n] + text[n..];
      AtParts(s, p, text[..n], text[n..]);
      CharsScan(enc, s, p + n, quote, text[n..], name, value);
    }
  }

  /** The state among the digits, inside a value. */
  function AmongIn(hex: bool, ctx: RefContext): State { if hex then HexRefDigits(ctx) else CharRefDec(ctx) }

  lemma {:induction false} DigitInValue(enc: Encoding, hex: bool, t: ByteType, w: string)
    requires Utf8(enc) && w != ""
    ensures IsDigit(hex, w[0]) ==> Step(enc, AmongIn(hex, InValue(t)), w) == Go(1, AmongIn(hex, InValue(t)))
    ensures IsDigit(hex, w[0]) ==> Step(enc, if hex then HexRefOpen(InValue(t)) else CharRefOpen(InValue(t)), w) == Go(1, AmongIn(hex, InValue(t)))
    ensures w[0] == ';' ==> Step(enc, AmongIn(hex, InValue(t)), w) == Go(1, AttValue(t))
  {
    hide Step; hide IsDigit;
    StepBy(enc, AmongIn(hex, InValue(t)), w);
    StepBy(enc, if hex then HexRefOpen(InValue(t)) else CharRefOpen(InValue(t)), w);
    if IsDigit(hex, w[0]) { DigitType(enc, hex, w[0]); NoLetterX(hex, w[0]); }
    if w[0] == ';' { assert enc.byteType(';') == Utf8Type(';'); }
  }

  lemma {:induction false} NoLetterX(hex: bool, c: char)
    requires IsDigit(hex, c)
    ensures c != 'x'
  {
  }

  lemma {:induction false} HashInValue(enc: Encoding, t: ByteType, w: string)
    requires Utf8(enc) && w != ""
    ensures w[0] == '#' ==> Step(enc, RefOpen(InValue(t)), w) == Go(1, CharRefOpen(InValue(t)))
    ensures w[0] == 'x' ==> Step(enc, CharRefOpen(InValue(t)), w) == Go(1, HexRefOpen(InValue(t)))
    ensures w[0] == ';' ==> Step(enc, RefName(InValue(t)), w) == Go(1, AttValue(t))
  {
    hide Step;
    StepBy(enc, RefOpen(InValue(t)), w);
    StepBy(enc, CharRefOpen(InValue(t)), w);
    StepBy(enc, RefName(InValue(t)), w);
    if w[0] != '\r' { assert enc.byteType(w[0]) == Utf8Type(w[0]); }
  }

  lemma {:induction false} DigitsInValue(enc: Encoding, s: string, p: nat, hex: bool, t: ByteType, digits: string, name: nat, value: nat)
    requires Utf8(enc) && At(s, p, digits) && forall i :: 0 <= i < |digits| ==> IsDigit(hex, digits[i])
    ensures var q := AmongIn(hex, InValue(t)); p + |digits| <= |s| && Leads(enc, s, q, p, name, value, q, p + |digits|, name, value)
    decreases |digits|
  {
    hide Step; hide Scan; hide Passed; hide Utf8; hide IsDigit;
    if digits != "" {
      AtFirst(s, p, digits);
      DigitInValue(enc, hex, t, s[p..]);
      Goes(enc, s, AmongIn(hex, InValue(t)), p, name, value);
      DigitsInValue(enc, s, p + 1, hex, t, digits[1..], name, value);
    }
  }

  /** Up to the first digit. */
  lemma {:induction false} NumberOpens(enc: Encoding, s: string, p: nat, quote: char, hex: bool, name: nat, value: nat)
    requires Utf8(enc) && IsQuote(quote) && At(s, p, if hex then "&#x" else "&#")
    ensures var ctx := InValue(Mark(quote)); var k := if hex then 3 else 2;
            p + k <= |s| && Leads(enc, s, AttValue(Mark(quote)), p, name, value, if hex then HexRefOpen(ctx) else CharRefOpen(ctx), p + k, name, value)
  {
    hide Step; hide Scan; hide Passed; hide Utf8;
    var open, ctx := if hex then "&#x" else "&#", InValue(Mark(quote));
    AtFirst(s, p, open);
    AtFirst(s, p + 1, open[1..]);
    InQuotesMoves(enc, quote, s[p..]);
    Goes(enc, s, AttValue(Mark(quote)), p, name, value);
    HashInValue(enc, Mark(quote), s[p + 1..]);
    Goes(enc, s, RefOpen(ctx), p + 1, name, value);
    if hex {
      AtFirst(s, p + 2, open[1..][1..]);
      HashInValue(enc, Mark(quote), s[p + 2..]);
      Goes(enc, s, CharRefOpen(ctx), p + 2, name, value);
    }
  }

  lemma {:induction false} NumberScan(enc: Encoding, s: string, p: nat, quote: char, hex: bool, digits: string, name: nat, value: nat)
    requires Utf8(enc) && IsQuote(quote) && digits != "" && (forall i :: 0 <= i < |digits| ==> IsDigit(hex, digits[i])) && At(s, p, Reference(hex, digits))
    ensures var q := AttValue(Mark(quote)); p + |Reference(hex, digits)| <= |s| && Leads(enc, s, q, p, name, value, q, p + |Reference(hex, digits)|, name, value)
  {
    hide Step; hide Scan; hide Passed; hide Utf8; hide IsDigit; hide At;
    var open := if hex then "&#x" else "&#";
    var k, t := p + |open|, Mark(quote);
    assert Reference(hex, digits) == open + (digits + ";");
    AtParts(s, p, open, digits + ";");
    AtParts(s, k, digits, ";");
    NumberOpens(enc, s, p, quote, hex, name, value);
    AtFirst(s, k, digits);
    DigitInValue(enc, hex, t, s[k..]);
    Goes(enc, s, if hex then HexRefOpen(InValue(t)) else CharRefOpen(InValue(t)), k, name, value);
    DigitsInValue(enc, s, k + 1, hex, t, digits[1..], name, value);
    AtFirst(s, k + |digits|, ";");
    DigitInValue(enc, hex, t, s[k + |digits|..]);
    Goes(enc, s, AmongIn(hex, InValue(t)), k + |digits|, name, value);
  }

  lemma {:induction false} NamedScan(enc: Encoding, s: string, p: nat, quote: char, e: string, name: nat, value: nat)
    requires Utf8(enc) && IsQuote(quote) && LegalName(enc, e) && At(s, p, EntityReference(e))
    ensures var q := AttValue(Mark(quote)); p + |EntityReference(e)| <= |s| && Leads(enc, s, q, p, name, value, q, p + |EntityReference(e)|, name, value)
  {
    hide Step; hide Scan; hide Passed; hide LegalName; hide Utf8; hide At;
    var t := Mark(quote);
    AtParts(s, p, "&", e + ";");
    AtParts(s, p + 1, e, ";");
    AtFirst(s, p, "&");
    InQuotesMoves(enc, quote, s[p..]);
    Goes(enc, s, AttValue(t), p, name, value);
    AtFirst(s, p + 1 + |e|, ";");
    WholeName(enc, s, RefOpen(InValue(t)), p + 1, e, name, value);
    HashInValue(enc, t, s[p + 1 + |e|..]);
    Goes(enc, s, RefName(InValue(t)), p + 1 + |e|, name, value);
  }

  lemma {:induction false} PiecesScan(enc: Encoding, s: string, p: nat, quote: char, l: seq<Piece>, name: nat, value: nat)
    requires Utf8(enc) && IsQuote(quote) && LegalPieces(enc, l, '<') && Unquoted(l, quote) && At(s, p, PrintPieces(l))
    ensures var q := AttValue(Mark(quote)); p + |PrintPieces(l)| <= |s| && Leads(enc, s, q, p, name, value, q, p + |PrintPieces(l)|, name, value)
    decreases |l|
  {
    hide Step; hide Scan; hide Passed; hide LegalName; hide LegalText; hide Utf8; hide At; hide Spells; hide IsDigit; hide Reference; hide EntityReference; hide IsQuote; hide Mark;
    AtEnds(s, p, PrintPieces(l));
    if l != [] {
      AtParts(s, p, PrintPiece(l[0]), PrintPieces(l[1..]));
      match l[0] {
        case Chars(text) => CharsScan(enc, s, p, quote, text, name, value);
        case Number(hex, digits, n) => SpelledDigits(hex, digits, n); NumberScan(enc, s, p, quote, hex, digits, name, value);
        case Named(e) => NamedScan(enc, s, p, quote, e, name, value);
      }
      PiecesScan(enc, s, p + |PrintPiece(l[0])|, quote, l[1..], name, value);
    }
  }

  // ---- Attributes ----

  lemma {:induction false} EqualsMoves(enc: Encoding, quote: char, w: string)
    requires Utf8(enc) && IsQuote(quote) && w != ""
    ensures w[0] == '=' ==> Step(enc, AttName, w) == Go(1, AttEq) == Step(enc, AttNameSpace, w)
    ensures w[0] == quote ==> Step(enc, AttEq, w) == Go(1, AttValue(Mark(quote)))
  {
    hide Step;
    if w[0] == '=' { NameMove(enc, w); SpacedNameMove(enc, w); }
    if w[0] == quote {
      StepBy(enc, AttEq, w);
      assert enc.byteType(quote) == Utf8Type(quote);
    }
  }

  lemma {:induction false} SpacedNameMove(enc: Encoding, w: string)
    requires Utf8(enc) && w != "" && w[0] == '='
    ensures Step(enc, AttNameSpace, w) == Go(1, AttEq)
  {
    hide Step;
    StepBy(enc, AttNameSpace, w);
    assert enc.byteType('=') == Utf8Type('=');
  }

  /** Where its parts are. */
  function PlaceOf(a: Spelled, p: nat): Attribute
  {
    var name := p + |a.space|;
    var value := name + |a.name| + |a.left| + 1 + |a.right| + 1;
    Attribute(name, value, value + |PrintPieces(a.value)|, true)
  }

  function Places(l: seq<Spelled>, p: nat): (r: seq<Attribute>)
    ensures |r| == |l|
    decreases |l|
  {
    if l == [] then [] else [PlaceOf(l[0], p)] + Places(l[1..], p + |AttText(l[0])|)
  }

  lemma {:induction false} SpelledParts(s: string, p: nat, a: Spelled)
    requires At(s, p, AttText(a))
    ensures var at := PlaceOf(a, p);
            && At(s, p, a.space) && At(s, at.name, a.name) && At(s, at.name + |a.name|, a.left) && At(s, at.name + |a.name| + |a.left|, "=")
            && At(s, at.name + |a.name| + |a.left| + 1, a.right) && At(s, at.valuePtr - 1, [a.quote]) && At(s, at.valuePtr, PrintPieces(a.value))
            && At(s, at.valueEnd, [a.quote]) && p + |AttText(a)| == at.valueEnd + 1 <= |s|
  {
    hide PrintPieces; hide At; hide ValueText;
    AtEnds(s, p, AttText(a));
    var value := ValueText(a);
    var k := p + |a.space|;
    AtParts(s, p, a.space, a.name + (a.left + ("=" + (a.right + value))));
    AtParts(s, k, a.name, a.left + ("=" + (a.right + value)));
    AtParts(s, k + |a.name|, a.left, "=" + (a.right + value));
    AtParts(s, k + |a.name| + |a.left|, "=", a.right + value);
    AtParts(s, k + |a.name| + |a.left| + 1, a.right, value);
    ValueParts(s, k + |a.name| + |a.left| + 1 + |a.right|, a);
  }

  lemma {:induction false} ValueParts(s: string, v: nat, a: Spelled)
    requires At(s, v, ValueText(a))
    ensures At(s, v, [a.quote]) && At(s, v + 1, PrintPieces(a.value)) && At(s, v + 1 + |PrintPieces(a.value)|, [a.quote]) && |ValueText(a)| == |PrintPieces(a.value)| + 2
  {
    hide PrintPieces; hide At;
    AtParts(s, v, [a.quote], PrintPieces(a.value) + [a.quote]);
    AtParts(s, v + 1, PrintPieces(a.value), [a.quote]);
  }

  /** From behind a name or value to the "=". */
  lemma {:induction false} ToEquals(enc: Encoding, s: string, q: State, p: nat, a: Spelled, name: nat, value: nat)
    requires Utf8(enc) && Behind(q) && a.space != "" && Whites(a.space) && Whites(a.left) && LegalName(enc, a.name)
    requires At(s, p, a.space) && At(s, p + |a.space|, a.name) && At(s, p + |a.space| + |a.name|, a.left) && At(s, p + |a.space| + |a.name| + |a.left|, "=")
    ensures var k := p + |a.space| + |a.name| + |a.left|;
            k < |s| && s[k..][0] == '=' && Leads(enc, s, q, p, name, value, if a.left == "" then AttName else AttNameSpace, k, p + |a.space|, value)
  {
    hide Step; hide Scan; hide Passed; hide LegalName; hide Utf8; hide At; hide Whites;
    var at, k := p + |a.space|, p + |a.space| + |a.name|;
    SpaceScan(enc, s, q, p, a.space, name, value);
    AtFirst(s, k + |a.left|, "=");
    WholeName(enc, s, Spaced(q), at, a.name, name, value);
    if a.left != "" { SpaceScan(enc, s, AttName, k, a.left, at, value); }
  }

  /** From there to the value. */
  lemma {:induction false} EqualsToValue(enc: Encoding, s: string, q: State, k: nat, right: string, quote: char, name: nat, value: nat)
    requires Utf8(enc) && (q.AttName? || q.AttNameSpace?) && k < |s| && s[k..][0] == '=' && IsQuote(quote) && Whites(right)
    requires At(s, k + 1, right) && At(s, k + 1 + |right|, [quote])
    ensures var v := k + 2 + |right|; v <= |s| && Leads(enc, s, q, k, name, value, AttValue(Mark(quote)), v, name, v)
  {
    hide Step; hide Scan; hide Passed; hide Utf8; hide At; hide Whites; hide IsQuote; hide Mark;
    EqualsMoves(enc, quote, s[k..]);
    Goes(enc, s, q, k, name, value);
    BlanksScan(enc, s, AttEq, k + 1, right, name, value);
    AtFirst(s, k + 1 + |right|, [quote]);
    EqualsMoves(enc, quote, s[k + 1 + |right|..]);
    Goes(enc, s, AttEq, k + 1 + |right|, name, value);
  }

  /** From behind a name or value to the next value. */
  lemma {:induction false} ToValue(enc: Encoding, s: string, q: State, p: nat, a: Spelled, name: nat, value: nat)
    requires Utf8(enc) && Behind(q) && LegalSpelled(enc, a) && At(s, p, AttText(a))
    ensures var at := PlaceOf(a, p); at.valuePtr <= |s| && Leads(enc, s, q, p, name, value, AttValue(Mark(a.quote)), at.valuePtr, at.name, at.valuePtr)
  {
    hide Step; hide Scan; hide Passed; hide LegalName; hide Utf8; hide AttText; hide PrintPieces; hide LegalPieces; hide At; hide Whites; hide Unquoted; hide Mark;
    SpelledParts(s, p, a);
    ToEquals(enc, s, q, p, a, name, value);
    var k := p + |a.space| + |a.name| + |a.left|;
    EqualsToValue(enc, s, if a.left == "" then AttName else AttNameSpace, k, a.right, a.quote, p + |a.space|, value);
  }

  lemma {:induction false} ValueCloses(enc: Encoding, s: string, p: nat, quote: char, name: nat, value: nat)
    requires Utf8(enc) && IsQuote(quote) && At(s, p, [quote])
    ensures p < |s| && Scan(enc, AttValue(Mark(quote)), s, p) == Scan(enc, AttValueEnd, s, p + 1)
    ensures Passed(enc, AttValue(Mark(quote)), s, p, name, value) == [Attribute(name, value, p, true)] + Passed(enc, AttValueEnd, s, p + 1, name, value)
  {
    hide Step; hide Scan; hide Passed; hide Utf8; hide Mark;
    AtFirst(s, p, [quote]);
    InQuotesMoves(enc, quote, s[p..]);
    ScanUnfold(enc, AttValue(Mark(quote)), s, p);
    PassedStep(enc, AttValue(Mark(quote)), s, p, name, value);
  }

  /** Over one attribute: one position is passed. */
  lemma {:induction false} SpelledScan(enc: Encoding, s: string, q: State, p: nat, a: Spelled, name: nat, value: nat)
    requires Utf8(enc) && Behind(q) && LegalSpelled(enc, a) && At(s, p, AttText(a))
    ensures var p' := p + |AttText(a)|; var at := PlaceOf(a, p);
            && p' <= |s|
            && Scan(enc, q, s, p) == Scan(enc, AttValueEnd, s, p')
            && Passed(enc, q, s, p, name, value) == [at] + Passed(enc, AttValueEnd, s, p', at.name, at.valuePtr)
  {
    hide Step; hide Scan; hide Passed; hide LegalName; hide Utf8; hide AttText; hide PrintPieces; hide LegalPieces; hide At; hide Whites; hide Unquoted; hide Mark;
    SpelledParts(s, p, a);
    ToValue(enc, s, q, p, a, name, value);
    var at := PlaceOf(a, p);
    PiecesScan(enc, s, at.valuePtr, a.quote, a.value, at.name, at.valuePtr);
    ValueCloses(enc, s, at.valueEnd, a.quote, at.name, at.valuePtr);
  }

  // ---- The tag ----

  lemma {:induction false} EndMovesIn(enc: Encoding, q: State, w: string)
    requires w != "" && Utf8(enc) && (q.TagSpace? || q.AttSpace?)
    ensures w[0] == '>' ==> Step(enc, q, w) == Accept(if q.AttSpace? then StartTagWithAtts else StartTagNoAtts, 1)
    ensures w[0] == '/' ==> Step(enc, q, w) == Go(1, TagSlash(q.AttSpace?))
  {
    hide Step;
    StepBy(enc, q, w);
    if w[0] != '\r' { assert enc.byteType(w[0]) == Utf8Type(w[0]); }
  }

  /** The end of the tag, behind white space. */
  lemma {:induction false} SpacedTail(enc: Encoding, s: string, q: State, p: nat, empty: bool, name: nat, value: nat)
    requires Utf8(enc) && (q.TagSpace? || q.AttSpace?) && At(s, p, TagTail(empty))
    ensures Scan(enc, q, s, p) == Tok(TagToken(empty, q.AttSpace?), p + |TagTail(empty)|)
    ensures Passed(enc, q, s, p, name, value) == []
  {
    hide Step; hide Scan; hide Passed; hide Utf8;
    AtFirst(s, p, TagTail(empty));
    EndMovesIn(enc, q, s[p..]);
    ScanUnfold(enc, q, s, p);
    if empty {
      AtFirst(s, p + 1, ">");
      AttMoves(enc, s[p + 1..]);
      Goes(enc, s, q, p, name, value);
      ScanUnfold(enc, TagSlash(q.AttSpace?), s, p + 1);
      NothingPassed(enc, TagSlash(q.AttSpace?), s, p + 1, name, value);
    } else {
      NothingPassed(enc, q, s, p, name, value);
    }
  }

  lemma {:induction false} AnyTail(enc: Encoding, s: string, q: State, p: nat, space: string, empty: bool, name: nat, value: nat)
    requires Utf8(enc) && Behind(q) && Whites(space) && At(s, p, space + TagTail(empty))
    ensures Scan(enc, q, s, p) == Tok(TagToken(empty, q.AttValueEnd?), p + |space| + |TagTail(empty)|)
    ensures Passed(enc, q, s, p, name, value) == []
  {
    hide Step; hide Scan; hide Passed; hide Utf8; hide At; hide Whites;
    AtParts(s, p, space, TagTail(empty));
    if space == "" {
      TailScan(enc, s, q, p, empty, name, value);
    } else {
      SpaceScan(enc, s, q, p, space, name, value);
      SpacedTail(enc, s, Spaced(q), p + |space|, empty, name, value);
    }
  }

  lemma {:induction false} AttsTextScan(enc: Encoding, s: string, q: State, p: nat, l: seq<Spelled>, space: string, empty: bool, name: nat, value: nat)
    requires Utf8(enc) && Behind(q) && (forall i :: 0 <= i < |l| ==> LegalSpelled(enc, l[i])) && Whites(space) && At(s, p, AttsText(l) + (space + TagTail(empty)))
    ensures Scan(enc, q, s, p) == Tok(TagToken(empty, q.AttValueEnd? || l != []), p + |AttsText(l)| + |space| + |TagTail(empty)|)
    ensures Passed(enc, q, s, p, name, value) == Places(l, p)
    decreases |l|
  {
    hide Step; hide Scan; hide Passed; hide Utf8; hide LegalSpelled; hide Whites; hide AttText; hide At;
    if l == [] {
      assert "" + (space + TagTail(empty)) == space + TagTail(empty);
      AnyTail(enc, s, q, p, space, empty, name, value);
    } else {
      var rest := AttsText(l[1..]) + (space + TagTail(empty));
      assert AttsText(l) + (space + TagTail(empty)) == AttText(l[0]) + rest;
      AtParts(s, p, AttText(l[0]), rest);
      SpelledScan(enc, s, q, p, l[0], name, value);
      var at := PlaceOf(l[0], p);
      AttsTextScan(enc, s, AttValueEnd, p + |AttText(l[0])|, l[1..], space, empty, at.name, at.valuePtr);
    }
  }

  /** A start tag is scanned to its ">", and its attributes are passed where they are. */
  lemma {:induction false} StartScan(enc: Encoding, s: string, t: StartTag)
    requires Utf8(enc) && LegalStart(enc, t) && At(s, 0, StartText(t))
    ensures |s| >= 1 && s[0] == '<'
    ensures Scan(enc, LtOpen, s, 1) == Tok(TagToken(t.empty, t.atts != []), |StartText(t)|)
    ensures Passed(enc, LtOpen, s, 1, 0, 0) == Places(t.atts, 1 + |t.name|)
  {
    hide Step; hide Scan; hide Passed; hide Utf8; hide LegalName; hide AttsText; hide LegalSpelled; hide Whites; hide Places; hide At;
    var tail := AttsText(t.atts) + (t.space + TagTail(t.empty));
    AtParts(s, 0, "<", t.name + tail);
    AtParts(s, 1, t.name, tail);
    AtFirst(s, 0, "<");
    WholeName(enc, s, LtOpen, 1, t.name, 0, 0);
    AttsTextScan(enc, s, TagName, 1 + |t.name|, t.atts, t.space, t.empty, 0, 0);
  }

  // ---- Stored values ----

  lemma {:induction false} AsciiComplete(s: string)
    requires forall i :: 0 <= i < |s| ==> s[i] as int < 0x80
    ensures XmlFormed.Complete(s)
    decreases |s|
  {
    if s != "" {
      AsciiWhole(s[0]);
      AsciiComplete(s[1..]);
    }
  }

  lemma {:induction false} AsciiWhole(c: char)
    requires c as int < 0x80
    ensures XmlFormed.Utf8Length(c) == 1
  {
  }

  lemma {:induction false} DigitsAscii(hex: bool, digits: string)
    requires forall i :: 0 <= i < |digits| ==> IsDigit(hex, digits[i])
    ensures forall i :: 0 <= i < |Reference(hex, digits)| ==> Reference(hex, digits)[i] as int < 0x80
  {
  }

  lemma {:induction false} PiecesComplete(enc: Encoding, l: seq<Piece>, c: char)
    requires Utf8(enc) && LegalPieces(enc, l, c)
    ensures XmlFormed.Complete(PrintPieces(l))
    decreases |l|
  {
    hide XmlFormed.Complete; hide Utf8; hide LegalText; hide LegalName; hide Spells; hide EntityReference; hide Reference; hide IsDigit;
    if l == [] {
      XmlFormed.NothingComplete();
    } else {
      PiecesComplete(enc, l[1..], c);
      match l[0] {
        case Chars(text) => XmlFormed.LegalComplete(enc, text);
        case Number(hex, digits, n) => SpelledDigits(hex, digits, n); DigitsAscii(hex, digits); AsciiComplete(Reference(hex, digits));
        case Named(name) => XmlFormed.ReferenceComplete(enc, name);
      }
      XmlFormed.CompleteBoth(PrintPiece(l[0]), PrintPieces(l[1..]));
    }
  }

  /** The value for a type: its text, or its words. */
  function TypedMeaning(internal: Encoding, dtd: Dtd, open: set<string>, isCdata: bool, l: seq<Piece>): ValueResult
  {
    match Meaning(internal, dtd, open, l) case ValueError(code) => ValueError(code) case Value(text) => Value(Typed(isCdata, text))
  }

  /** With the fast path or without, the value is the same. */
  lemma {:induction false} SpelledStored(internal: Encoding, dtd: Dtd, open: set<string>, enc: Encoding, tag: string, a: Attribute, l: seq<Piece>, isCdata: bool)
    requires Utf8(enc) && LegalPieces(enc, l, '<') && (isCdata || Whole(internal, dtd))
    requires At(tag, a.valuePtr, PrintPieces(l)) && a.valueEnd == a.valuePtr + |PrintPieces(l)| && MarkedPlain(enc, tag, a)
    ensures var raw := Slice(tag, a.valuePtr, a.valueEnd);
            (if a.normalized then Value(raw) else StoreValue(internal, dtd, open, enc, isCdata, raw)) == TypedMeaning(internal, dtd, open, isCdata, l)
  {
    hide Plain; hide StoreValue; hide Utf8; hide LegalPieces; hide PrintPieces; hide Typed; hide Meaning; hide WellFormed; hide XmlFormed.Complete; hide Whole; hide NoFalseSpace;
    var raw := Slice(tag, a.valuePtr, a.valueEnd);
    assert raw == PrintPieces(l);
    LiteralStored(internal, dtd, open, enc, isCdata, l);
    if a.normalized {
      PlainMoved(enc, tag, a.valuePtr, a.valuePtr, a.valueEnd, raw, 0, a.valuePtr);
      PiecesComplete(enc, l, '<');
      assert raw[0..] == raw;
      XmlFormed.CompleteFormed(enc, raw, 0);
      WellFormedStored(enc, raw, 0, 0);
      PlainStored(internal, dtd, open, enc, raw);
    }
  }

  /** The specified attributes, in order: no name twice, each with the value its text means for its type. */
  function AttsMean(internal: Encoding, dtd: Dtd, open: set<string>, defaults: seq<DefaultAtt>, l: seq<Spelled>, done: seq<(string, string)>): AttsOutcome
    decreases |l|
  {
    if l == [] then Stored(done)
    else if Has(done, l[0].name) then AttsError(DuplicateAttribute)
    else match TypedMeaning(internal, dtd, open, IsCdata(defaults, l[0].name), l[0].value)
      case ValueError(code) => AttsError(code)
      case Value(text) => AttsMean(internal, dtd, open, defaults, l[1..], done + [(l[0].name, text)])
  }

  /** And the declared values of others. */
  function StartMeans(internal: Encoding, dtd: Dtd, open: set<string>, t: StartTag): AttsOutcome
  {
    match AttsMean(internal, dtd, open, Defaults(dtd, t.name), t.atts, [])
    case AttsError(code) => AttsError(code)
    case Stored(atts) => Stored(AddDefaults(Defaults(dtd, t.name), atts))
  }

  predicate SpelledRecords(enc: Encoding, tag: string, list: seq<Attribute>, l: seq<Spelled>, p: nat)
  {
    SamePositions(list, Places(l, p)) && forall i :: 0 <= i < |list| ==> MarkedPlain(enc, tag, list[i])
  }

  lemma {:induction false} SpelledRest(enc: Encoding, tag: string, list: seq<Attribute>, l: seq<Spelled>, p: nat)
    requires l != [] && SpelledRecords(enc, tag, list, l, p)
    ensures list != [] && SpelledRecords(enc, tag, list[1..], l[1..], p + |AttText(l[0])|)
    ensures var a := PlaceOf(l[0], p);
            list[0].name == a.name && list[0].valuePtr == a.valuePtr && list[0].valueEnd == a.valueEnd && MarkedPlain(enc, tag, list[0])
  {
    hide MarkedPlain; hide AttText; hide PlaceOf;
    var all := Places(l, p);
    assert all[0] == PlaceOf(l[0], p) && all[1..] == Places(l[1..], p + |AttText(l[0])|);
  }

  lemma {:induction false} SpelledName(enc: Encoding, s: string, p: nat, a: Spelled)
    requires Utf8(enc) && At(s, p, AttText(a)) && LegalSpelled(enc, a)
    ensures NameAt(enc, s, p + |a.space|) == a.name
  {
    hide Utf8; hide LegalName; hide NameAt; hide AttText; hide PrintPieces; hide LegalPieces; hide Unquoted; hide At;
    SpelledParts(s, p, a);
    var k := p + |a.space| + |a.name|;
    AtFirst(s, k + |a.left|, "=");
    if a.left != "" { AtFirst(s, k, a.left); }
    NameFound(enc, s, p + |a.space|, a.name);
  }

  lemma {:induction false} SpelledEach(internal: Encoding, dtd: Dtd, open: set<string>, enc: Encoding, tag: string, defaults: seq<DefaultAtt>,
                                       list: seq<Attribute>, l: seq<Spelled>, p: nat, done: seq<(string, string)>)
    requires Utf8(enc) && (forall i :: 0 <= i < |l| ==> LegalSpelled(enc, l[i])) && Whole(internal, dtd)
    requires At(tag, p, AttsText(l)) && SpelledRecords(enc, tag, list, l, p)
    ensures StoreEach(internal, dtd, open, enc, tag, defaults, list, done) == AttsMean(internal, dtd, open, defaults, l, done)
    decreases |l|
  {
    hide Utf8; hide StoreValue; hide TypedMeaning; hide LegalName; hide PrintPieces; hide LegalPieces; hide Unquoted; hide Whites; hide AttText; hide MarkedPlain; hide Whole; hide NameAt; hide IsCdata;
    hide SpelledRecords; hide At; hide Has; hide Slice; hide PlaceOf;
    if l == [] {
      NoSpelled(enc, tag, list, p);
    } else {
      SpelledRest(enc, tag, list, l, p);
      AtParts(tag, p, AttText(l[0]), AttsText(l[1..]));
      SpelledName(enc, tag, p, l[0]);
      SpelledParts(tag, p, l[0]);
      PlaceIs(l[0], p);
      SpelledStored(internal, dtd, open, enc, tag, list[0], l[0].value, IsCdata(defaults, l[0].name));
      var m := TypedMeaning(internal, dtd, open, IsCdata(defaults, l[0].name), l[0].value);
      if m.Value? {
        SpelledEach(internal, dtd, open, enc, tag, defaults, list[1..], l[1..], p + |AttText(l[0])|, done + [(l[0].name, m.text)]);
      }
    }
  }

  lemma {:induction false} PlaceIs(a: Spelled, p: nat)
    ensures var at := PlaceOf(a, p); at.name == p + |a.space| && at.valueEnd == at.valuePtr + |PrintPieces(a.value)|
  {
  }

  lemma {:induction false} NoSpelled(enc: Encoding, tag: string, list: seq<Attribute>, p: nat)
    requires SpelledRecords(enc, tag, list, [], p)
    ensures list == []
  {
  }

  lemma {:induction false} StartParts(t: StartTag)
    ensures var s := StartText(t);
            && At(s, 0, s) && At(s, 1, t.name) && At(s, 1 + |t.name|, AttsText(t.atts)) && 1 + |t.name| < |s|
            && s[1 + |t.name|] == (AttsText(t.atts) + (t.space + TagTail(t.empty)))[0]
  {
    hide AttsText;
    var s, tail := StartText(t), AttsText(t.atts) + (t.space + TagTail(t.empty));
    assert At(s, 0, "<" + (t.name + tail));
    AtParts(s, 0, "<", t.name + tail);
    AtParts(s, 1, t.name, tail);
    AtParts(s, 1 + |t.name|, AttsText(t.atts), t.space + TagTail(t.empty));
    AtFirst(s, 1 + |t.name|, tail);
  }

  lemma {:induction false} StartNameEnds(enc: Encoding, t: StartTag)
    requires LegalStart(enc, t)
    ensures EndsName((AttsText(t.atts) + (t.space + TagTail(t.empty)))[0])
  {
    hide LegalName; hide LegalPieces; hide PrintPieces;
    var tail := t.space + TagTail(t.empty);
    if t.atts != [] {
      assert LegalSpelled(enc, t.atts[0]);
      assert (AttsText(t.atts) + tail)[0] == AttsText(t.atts)[0] == AttText(t.atts[0])[0] == t.atts[0].space[0];
    } else {
      assert "" + tail == tail;
      if t.space != "" { assert tail[0] == t.space[0]; }
    }
  }

  lemma {:induction false} StartTok(enc: Encoding, t: StartTag, rest: string)
    requires Utf8(enc) && LegalStart(enc, t)
    ensures ContentTok(enc, StartText(t) + rest) == Tok(TagToken(t.empty, t.atts != []), |StartText(t)|)
  {
    hide Utf8; hide LegalStart; hide Scan; hide Passed; hide StartText; hide ContentTok;
    var tag := StartText(t);
    var w := tag + rest;
    assert At(w, 0, tag);
    StartScan(enc, w, t);
    TagFirst(enc, w);
  }

  /** What the tokenizer and storeAtts make of a start tag. */
  lemma {:induction false} StartRead(internal: Encoding, dtd: Dtd, open: set<string>, enc: Encoding, t: StartTag)
    requires Utf8(enc) && LegalStart(enc, t) && Whole(internal, dtd)
    ensures NameAt(enc, StartText(t), 1) == t.name && StoreAtts(internal, dtd, open, enc, StartText(t), t.name) == StartMeans(internal, dtd, open, t)
  {
    hide Utf8; hide LegalName; hide NameAt; hide GetAtts; hide MarkedPlain; hide ContentTok; hide StoreEach; hide Places; hide Scan; hide Passed; hide StartText; hide LegalSpelled; hide AttsMean;
    hide AttsText; hide Whites; hide EndsName; hide Whole;
    var tag := StartText(t);
    StartParts(t);
    StartNameEnds(enc, t);
    StartTok(enc, t, "");
    assert tag + "" == tag && tag[..|tag|] == tag;
    NameFound(enc, tag, 1, t.name);
    TableFacts(enc);
    StartScan(enc, tag, t);
    TagAttributes(enc, tag);
    SpelledEach(internal, dtd, open, enc, tag, Defaults(dtd, t.name), GetAtts(enc, tag, 1, GETTER_START).list, t.atts, 1 + |t.name|, []);
  }

  /** Any start tag in content. */
  lemma {:induction false} StartParsed(env: Env, at: Place, prolog: Prolog, tags: seq<string>, t: StartTag, rest: string, f: bool)
    requires Utf8(at.enc) && LegalStart(at.enc, t) && Whole(env.internal, prolog.dtd)
    ensures In(env, at, prolog, tags, StartText(t) + rest, f) ==
            match StartMeans(env.internal, prolog.dtd, at.open, t)
            case AttsError(code) => Result([], Failed(code))
            case Stored(atts) =>
              if t.empty then Then([StartElement(t.name, atts), EndElement(t.name)], Onward(env, at, prolog, tags, rest, f))
              else Then([StartElement(t.name, atts)], In(env, at, prolog, tags + [t.name], rest, f))
  {
    hide Utf8; hide LegalStart; hide StartText; hide ContentTok; hide NameAt; hide StoreAtts; hide Content; hide Cdata; hide Epilog; hide StartMeans; hide Whole;
    var tag := StartText(t);
    var w := tag + rest;
    StartTok(at.enc, t, rest);
    StartRead(env.internal, prolog.dtd, at.open, at.enc, t);
    assert w[..|tag|] == tag && w[|tag|..] == rest;
    ContentOfToken(env, prolog, at.open, at.enc, at.base, tags, w, f);
    HandleTag(env, at, prolog, tags, TagToken(t.empty, t.atts != []), tag);
  }

  /** What is stored for the attributes that are there. */
  lemma {:induction false} AttsGive(internal: Encoding, dtd: Dtd, open: set<string>, defaults: seq<DefaultAtt>, l: seq<Spelled>, done: seq<(string, string)>)
    requires Unique(done)
    ensures var r := AttsMean(internal, dtd, open, defaults, l, done);
            r.Stored? ==>
              && Unique(r.atts) && |r.atts| == |done| + |l| && r.atts[..|done|] == done
              && forall i :: 0 <= i < |l| ==>
                   r.atts[|done| + i].0 == l[i].name && TypedMeaning(internal, dtd, open, IsCdata(defaults, l[i].name), l[i].value) == Value(r.atts[|done| + i].1)
    decreases |l|
  {
    hide TypedMeaning; hide IsCdata; hide Unique; hide Has;
    if l != [] && !Has(done, l[0].name) {
      var m := TypedMeaning(internal, dtd, open, IsCdata(defaults, l[0].name), l[0].value);
      if m.Value? {
        var more := done + [(l[0].name, m.text)];
        XmlDefaults.OneMore(done, (l[0].name, m.text));
        AttsGive(internal, dtd, open, defaults, l[1..], more);
        var r := AttsMean(internal, dtd, open, defaults, l[1..], more);
        if r.Stored? {
          assert r.atts[..|done|] == r.atts[..|more|][..|done|];
          assert r.atts[|done|] == r.atts[..|more|][|done|];
          forall i | 0 <= i < |l|
            ensures r.atts[|done| + i].0 == l[i].name && TypedMeaning(internal, dtd, open, IsCdata(defaults, l[i].name), l[i].value) == Value(r.atts[|done| + i].1)
          {
            if i > 0 { assert l[i] == l[1..][i - 1]; }
          }
        }
      }
    }
  }

  /** The attributes of a tag: those that are there, in order, each with what its text means for its type; none twice; and behind them those
      others that have a declared value. */
  lemma {:induction false} StartGives(internal: Encoding, dtd: Dtd, open: set<string>, t: StartTag)
    ensures var r := StartMeans(internal, dtd, open, t); var defaults := Defaults(dtd, t.name);
            r.Stored? ==>
              && Unique(r.atts) && |t.atts| <= |r.atts|
              && (forall i :: 0 <= i < |t.atts| ==>
                    r.atts[i].0 == t.atts[i].name && TypedMeaning(internal, dtd, open, IsCdata(defaults, t.atts[i].name), t.atts[i].value) == Value(r.atts[i].1))
              && forall name :: XmlDefaults.ValueIn(r.atts[..|t.atts|], name) == None ==> XmlDefaults.ValueIn(r.atts, name) == XmlDefaults.FirstGiven(defaults, name)
  {
    hide TypedMeaning; hide IsCdata; hide Unique; hide AttsMean; hide AddDefaults;
    var defaults := Defaults(dtd, t.name);
    assert Unique([]) by { NoneTwice(); }
    AttsGive(internal, dtd, open, defaults, t.atts, []);
    var m := AttsMean(internal, dtd, open, defaults, t.atts, []);
    if m.Stored? {
      XmlDefaults.DefaultsAdded(defaults, m.atts);
      assert AddDefaults(defaults, m.atts)[..|t.atts|] == m.atts;
    }
  }

  lemma {:induction false} NoneTwice()
    ensures Unique([])
  {
  }

  // ---- End tags ----

  lemma {:induction false} GtInEnd(enc: Encoding, q: State, w: string)
    requires Utf8(enc) && (q.EndTagName? || q.EndTagSpace?) && w != "" && w[0] == '>'
    ensures Step(enc, q, w) == Accept(EndTag, 1)
  {
    hide Step;
    StepBy(enc, q, w);
    assert enc.byteType('>') == Utf8Type('>');
  }

  lemma {:induction false} EndParts(name: string, space: string, rest: string)
    ensures var w := EndText(name, space) + rest;
            && At(w, 0, "<") && At(w, 1, "/") && At(w, 2, name) && At(w, 2 + |name|, space) && At(w, 2 + |name| + |space|, ">")
            && |EndText(name, space)| == |name| + |space| + 3
  {
    hide At;
    var w := EndText(name, space) + rest;
    assert EndText(name, space) == "<" + ("/" + (name + (space + ">")));
    AtStart(w, "<" + ("/" + (name + (space + ">"))), rest);
    AtParts(w, 0, "<", "/" + (name + (space + ">")));
    AtParts(w, 1, "/", name + (space + ">"));
    AtParts(w, 2, name, space + ">");
    AtParts(w, 2 + |name|, space, ">");
  }

  lemma {:induction false} EndTok(enc: Encoding, name: string, space: string, rest: string)
    requires Utf8(enc) && LegalName(enc, name) && Whites(space)
    ensures ContentTok(enc, EndText(name, space) + rest) == Tok(EndTag, |EndText(name, space)|)
  {
    hide Utf8; hide LegalName; hide Whites; hide Scan; hide Passed; hide Step; hide At; hide ContentTok; hide EndText;
    var w := EndText(name, space) + rest;
    EndParts(name, space, rest);
    AtFirst(w, 0, "<");
    TagFirst(enc, w);
    AtFirst(w, 1, "/");
    EndMoves(enc, w[1..]);
    EndEntered(enc, w);
    EndScan(enc, w, name, space);
  }

  lemma {:induction false} EndScan(enc: Encoding, w: string, name: string, space: string)
    requires Utf8(enc) && LegalName(enc, name) && Whites(space) && At(w, 2, name) && At(w, 2 + |name|, space) && At(w, 2 + |name| + |space|, ">")
    ensures 2 <= |w| && Scan(enc, EndTagOpen, w, 2) == Tok(EndTag, |name| + |space| + 3)
  {
    hide Utf8; hide LegalName; hide Whites; hide Scan; hide Passed; hide Step; hide At;
    var k := 2 + |name| + |space|;
    AtFirst(w, k, ">");
    WholeName(enc, w, EndTagOpen, 2, name, 0, 0);
    if space != "" { SpaceScan(enc, w, EndTagName, 2 + |name|, space, 0, 0); }
    GtInEnd(enc, if space == "" then EndTagName else EndTagSpace, w[k..]);
    ScanUnfold(enc, if space == "" then EndTagName else EndTagSpace, w, k);
  }

  lemma {:induction false} EndNamed(enc: Encoding, name: string, space: string)
    requires Utf8(enc) && LegalName(enc, name) && Whites(space)
    ensures NameAt(enc, EndText(name, space), 2) == name
  {
    hide Utf8; hide LegalName; hide NameAt;
    var s, tail := EndText(name, space), space + ">";
    assert At(s, 0, "</" + (name + tail));
    AtParts(s, 0, "</", name + tail);
    AtParts(s, 2, name, tail);
    AtHead(s, 2 + |name|, tail);
    if space != "" { assert tail[0] == space[0]; }
    NameFound(enc, s, 2, name);
  }

  /** The end tag of the innermost element. */
  lemma {:induction false} EndParsed(env: Env, at: Place, prolog: Prolog, tags: seq<string>, name: string, space: string, rest: string, f: bool)
    requires Utf8(at.enc) && LegalName(at.enc, name) && Whites(space) && at.base <= |tags|
    ensures In(env, at, prolog, tags + [name], EndText(name, space) + rest, f) == Then([EndElement(name)], Onward(env, at, prolog, tags, rest, f))
  {
    hide Utf8; hide LegalName; hide EndText; hide Whites; hide ContentTok; hide NameAt; hide Content; hide Cdata; hide Epilog; hide Expand; hide XmlContent.Tag;
    var tag := EndText(name, space);
    var w := tag + rest;
    EndTok(at.enc, name, space, rest);
    EndNamed(at.enc, name, space);
    assert w[..|tag|] == tag && w[|tag|..] == rest;
    HandleEnd(env, at, prolog, tags, name, tag);
    hide Handle;
    ContentOfToken(env, prolog, at.open, at.enc, at.base, tags + [name], w, f);
  }
}
