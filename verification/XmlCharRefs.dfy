/**
 Character references (section 4.1 of XML 1.0): the number charRefNumber of
 libjabber/xmltok_impl_c.h reads is the one that is written, in any number of
 digits and in either case, and the character is reported where XML allows it.
 */
module XmlCharRefs {
  import opened XmlScan
  import opened XmlTok
  import opened XmlValue
  import opened XmlContent
  import opened XmlChunks
  import opened XmlPool
  import opened XmlPrinted

  // ---- Numerals ----

  const LOWER_DIGITS := "0123456789abcdef"
  const UPPER_DIGITS := "0123456789ABCDEF"

  /** `s` is the numeral of `n` to the base, digits in either case, and zeros in front. */
  ghost predicate Spells(base: nat, s: string, n: nat)
    requires 2 <= base <= 16
    decreases |s|
  {
    if s == "" then n == 0
    else
      var d := n % base;
      (s[|s| - 1] == LOWER_DIGITS[d] || s[|s| - 1] == UPPER_DIGITS[d]) && Spells(base, s[..|s| - 1], n / base)
  }

  /** The characters of XML 1.0, production 2. */
  predicate XmlChar(n: nat)
  {
    n == 9 || n == 0xA || n == 0xD || 0x20 <= n <= 0xD7FF || 0xE000 <= n <= 0xFFFD || 0x10000 <= n <= 0x10FFFF
  }

  function Base(hex: bool): (b: nat) ensures b == 10 || b == 16 { if hex then 16 else 10 }

  /** The reference with these digits. */
  function Reference(hex: bool, digits: string): string { (if hex then "&#x" else "&#") + digits + ";" }

  lemma {:induction false} DigitRead(d: nat, c: char)
    requires d < 16 && (c == LOWER_DIGITS[d] || c == UPPER_DIGITS[d])
    ensures HexDigit(c) == d && c != ';' && c as int < 0x80 && (d < 10 ==> c as int - '0' as int == d && c != 'x')
    ensures if d < 10 then '0' <= c <= '9' else 'A' <= c <= 'F' || 'a' <= c <= 'f'
  {
    Digits(d);
  }

  lemma {:induction false} Digits(d: nat)
    requires d < 16
    ensures LOWER_DIGITS[d] as int == (if d < 10 then '0' as int + d else 'a' as int + d - 10)
    ensures UPPER_DIGITS[d] as int == (if d < 10 then '0' as int + d else 'A' as int + d - 10)
  {
  }

  lemma {:induction false} SpellsLast(base: nat, s: string, n: nat)
    requires 2 <= base <= 16 && s != "" && Spells(base, s, n)
    ensures var c, d := s[|s| - 1], n % base;
            d < base && (c == LOWER_DIGITS[d] || c == UPPER_DIGITS[d]) && Spells(base, s[..|s| - 1], n / base) && n == base * (n / base) + d && n / base <= n
  {
    hide LOWER_DIGITS; hide UPPER_DIGITS;
    Division(n, base);
  }

  lemma {:induction false} Division(n: nat, base: nat)
    requires 2 <= base
    ensures n == base * (n / base) + n % base && n / base <= n && n % base < base
  {
  }

  /** The loop for hexadecimal digits, up to the end of `s`. */
  lemma {:induction false} HexRead(ref: string, s: string, n: nat)
    requires Spells(16, s, n) && At(ref, 3, s)
    ensures HexNumber(ref, 3, 0) == if n >= 0x110000 then -1 else HexNumber(ref, 3 + |s|, n)
    decreases |s|
  {
    hide Spells; hide HexDigit; hide LOWER_DIGITS; hide UPPER_DIGITS; hide CheckCharRefNumber;
    if s == "" {
      SpellsNothing(16, n);
    } else {
      SpellsLast(16, s, n);
      var k := |s| - 1;
      assert s == s[..k] + [s[k]];
      AtParts(ref, 3, s[..k], [s[k]]);
      AtFirst(ref, 3 + k, [s[k]]);
      HexRead(ref, s[..k], n / 16);
      DigitRead(n % 16, s[k]);
    }
  }

  lemma {:induction false} SpellsNothing(base: nat, n: nat)
    requires 2 <= base <= 16 && Spells(base, "", n)
    ensures n == 0
  {
  }

  lemma {:induction false} DecRead(ref: string, s: string, n: nat)
    requires Spells(10, s, n) && At(ref, 2, s)
    ensures DecNumber(ref, 2, 0) == if n >= 0x110000 then -1 else DecNumber(ref, 2 + |s|, n)
    decreases |s|
  {
    hide Spells; hide HexDigit; hide LOWER_DIGITS; hide UPPER_DIGITS; hide CheckCharRefNumber;
    if s == "" {
      SpellsNothing(10, n);
    } else {
      SpellsLast(10, s, n);
      var k := |s| - 1;
      assert s == s[..k] + [s[k]];
      AtParts(ref, 2, s[..k], [s[k]]);
      AtFirst(ref, 2 + k, [s[k]]);
      DecRead(ref, s[..k], n / 10);
      DigitRead(n % 10, s[k]);
    }
  }

  lemma {:induction false} Checked(n: nat)
    requires n < 0x110000
    ensures CheckCharRefNumber(n) == if XmlChar(n) then n else -1
  {
  }

  /** Every numeral of a number is read as that number if it is one of a character, and refused otherwise. */
  lemma {:induction false} NumberRead(hex: bool, digits: string, n: nat)
    requires digits != "" && Spells(Base(hex), digits, n)
    ensures CharRefNumber(Reference(hex, digits)) == if XmlChar(n) then n else -1
  {
    hide Spells; hide CharRefNumber; hide CheckCharRefNumber; hide Reference;
    if hex { HexReference(digits, n); } else { DecReference(digits, n); }
    if n < 0x110000 { Checked(n); }
  }

  lemma {:induction false} HexReference(digits: string, n: nat)
    requires digits != "" && Spells(16, digits, n)
    ensures CharRefNumber(Reference(true, digits)) == if n >= 0x110000 then -1 else CheckCharRefNumber(n)
  {
    hide Spells; hide HexNumber; hide DecNumber; hide CheckCharRefNumber;
    var ref := Reference(true, digits);
    assert ref == "&#x" + (digits + ";") && At(ref, 0, "&#x" + (digits + ";"));
    AtParts(ref, 0, "&#x", digits + ";");
    AtParts(ref, 3, digits, ";");
    AtFirst(ref, 3 + |digits|, ";");
    HexRead(ref, digits, n);
    HexOver(ref, 3 + |digits|, n);
  }

  lemma {:induction false} DecReference(digits: string, n: nat)
    requires digits != "" && Spells(10, digits, n)
    ensures CharRefNumber(Reference(false, digits)) == if n >= 0x110000 then -1 else CheckCharRefNumber(n)
  {
    hide Spells; hide HexNumber; hide DecNumber; hide CheckCharRefNumber;
    var ref := Reference(false, digits);
    assert ref == "&#" + (digits + ";") && At(ref, 0, "&#" + (digits + ";"));
    AtParts(ref, 0, "&#", digits + ";");
    AtParts(ref, 2, digits, ";");
    AtFirst(ref, 2 + |digits|, ";");
    FirstDecimal(digits, n);
    DecRead(ref, digits, n);
    DecOver(ref, 2 + |digits|, n);
    assert ref[2] == digits[0];
  }

  lemma {:induction false} HexOver(ref: string, p: nat, n: int)
    requires p < |ref| && ref[p] == ';'
    ensures HexNumber(ref, p, n) == CheckCharRefNumber(n)
  {
  }

  lemma {:induction false} DecOver(ref: string, p: nat, n: int)
    requires p < |ref| && ref[p] == ';'
    ensures DecNumber(ref, p, n) == CheckCharRefNumber(n)
  {
  }

  lemma {:induction false} SpellsAt(base: nat, s: string, n: nat, i: nat) returns (d: nat)
    requires 2 <= base <= 16 && Spells(base, s, n) && i < |s|
    ensures d < base && (s[i] == LOWER_DIGITS[d] || s[i] == UPPER_DIGITS[d])
    decreases |s|
  {
    hide Spells; hide LOWER_DIGITS; hide UPPER_DIGITS;
    SpellsLast(base, s, n);
    assert i < |s| - 1 ==> s[..|s| - 1][i] == s[i];
    if i == |s| - 1 { d := n % base; } else { d := SpellsAt(base, s[..|s| - 1], n / base, i); }
  }

  lemma {:induction false} FirstDecimal(s: string, n: nat)
    requires s != "" && Spells(10, s, n)
    ensures s[0] != 'x'
  {
    hide Spells; hide LOWER_DIGITS; hide UPPER_DIGITS;
    var d := SpellsAt(10, s, n, 0);
    DigitRead(d, s[0]);
  }

  // ---- The token ----

  predicate IsDigit(hex: bool, c: char) { '0' <= c <= '9' || (hex && ('A' <= c <= 'F' || 'a' <= c <= 'f')) }

  lemma {:induction false} SpelledDigits(hex: bool, s: string, n: nat)
    requires Spells(Base(hex), s, n)
    ensures forall i :: 0 <= i < |s| ==> IsDigit(hex, s[i])
  {
    hide Spells; hide LOWER_DIGITS; hide UPPER_DIGITS;
    forall i | 0 <= i < |s| ensures IsDigit(hex, s[i]) {
      var d := SpellsAt(Base(hex), s, n, i);
      DigitRead(d, s[i]);
    }
  }

  lemma {:induction false} DigitType(enc: Encoding, hex: bool, c: char)
    requires Utf8(enc) && IsDigit(hex, c)
    ensures enc.byteType(c) == DIGIT || (hex && enc.byteType(c) == HEX)
  {
    assert c != '\r' && enc.byteType(c) == Utf8Type(c);
  }

  /** The state among the digits. */
  function Among(hex: bool): State { if hex then HexRefDigits(InContent) else CharRefDec(InContent) }

  lemma {:induction false} DigitMove(enc: Encoding, hex: bool, w: string)
    requires Utf8(enc) && w != ""
    ensures IsDigit(hex, w[0]) ==> StepRef(enc, Among(hex), w) == Go(1, Among(hex))
    ensures w[0] == ';' ==> StepRef(enc, Among(hex), w) == Accept(CharRef, 1)
    ensures IsDigit(hex, w[0]) ==> StepRef(enc, if hex then HexRefOpen(InContent) else CharRefOpen(InContent), w) == Go(1, Among(hex))
  {
    if IsDigit(hex, w[0]) { DigitType(enc, hex, w[0]); }
    if w[0] == ';' { assert enc.byteType(';') == Utf8Type(';'); }
  }

  lemma {:induction false} DigitsScan(enc: Encoding, hex: bool, w: string, p: nat, digits: string)
    requires Utf8(enc) && At(w, p, digits + ";") && forall i :: 0 <= i < |digits| ==> IsDigit(hex, digits[i])
    ensures p <= |w| && Scan(enc, Among(hex), w, p) == Tok(CharRef, p + |digits| + 1)
    decreases |digits|
  {
    hide Utf8; hide Scan; hide StepRef; hide IsDigit;
    var all := digits + ";";
    AtFirst(w, p, all);
    RefUnfold(enc, Among(hex), w, p);
    DigitMove(enc, hex, w[p..]);
    if digits != "" {
      assert all[0] == digits[0] && all[1..] == digits[1..] + ";";
      DigitsScan(enc, hex, w, p + 1, digits[1..]);
    } else {
      assert all == ";";
    }
  }

  lemma {:induction false} NumberMoves(enc: Encoding, w: string)
    requires Utf8(enc) && w != ""
    ensures w[0] == '#' ==> StepRef(enc, RefOpen(InContent), w) == Go(1, CharRefOpen(InContent))
    ensures w[0] == 'x' ==> StepRef(enc, CharRefOpen(InContent), w) == Go(1, HexRefOpen(InContent))
  {
    if w[0] == '#' { assert enc.byteType('#') == Utf8Type('#'); }
  }

  /** A character reference is a token of its own. */
  lemma {:induction false} NumberTok(enc: Encoding, hex: bool, digits: string, rest: string)
    requires Utf8(enc) && digits != "" && forall i :: 0 <= i < |digits| ==> IsDigit(hex, digits[i])
    ensures var w := Reference(hex, digits) + rest;
            w[0] == '&' && enc.byteType('&') == AMP && Scan(enc, RefOpen(InContent), w, 1) == Tok(CharRef, |Reference(hex, digits)|)
  {
    hide Scan; hide StepRef; hide IsDigit;
    assert enc.byteType('&') == Utf8Type('&');
    hide Utf8;
    var w, d := Reference(hex, digits) + rest, digits[1..];
    var start := if hex then 3 else 2;
    assert At(w, 0, (if hex then "&#x" else "&#") + (digits + ";"));
    AtParts(w, 0, if hex then "&#x" else "&#", digits + ";");
    AtFirst(w, start, digits + ";");
    assert w[0] == '&' && w[1] == '#' && w[1..][0] == '#';
    NumberMoves(enc, w[1..]);
    RefUnfold(enc, RefOpen(InContent), w, 1);
    RefUnfold(enc, CharRefOpen(InContent), w, 2);
    if hex {
      assert w[2] == 'x' && w[2..][0] == 'x';
      NumberMoves(enc, w[2..]);
      RefUnfold(enc, HexRefOpen(InContent), w, 3);
    }
    DigitMove(enc, hex, w[start..]);
    assert (digits + ";")[1..] == d + ";";
    DigitsScan(enc, hex, w, start + 1, d);
  }

  // ---- Where it stands ----

  /** In content: the character is reported, or the number refused. */
  lemma {:induction false} NumberParsed(env: Env, at: Place, prolog: Prolog, tags: seq<string>, hex: bool, digits: string, n: nat, rest: string, f: bool)
    requires Utf8(at.enc) && digits != "" && Spells(Base(hex), digits, n)
    ensures In(env, at, prolog, tags, Reference(hex, digits) + rest, f) ==
            if XmlChar(n) then Then(CharBytes(Utf8Encode(n)), In(env, at, prolog, tags, rest, f)) else Result([], Failed(BadCharRef))
  {
    hide Utf8; hide Spells; hide Scan; hide Reference; hide CharRefNumber; hide Utf8Encode; hide Content; hide Cdata; hide Expand; hide IsDigit; hide XmlChar;
    var ref := Reference(hex, digits);
    var w := ref + rest;
    SpelledDigits(hex, digits, n);
    NumberTok(at.enc, hex, digits, rest);
    NumberRead(hex, digits, n);
    assert ContentTok(at.enc, w) == Tok(CharRef, |ref|);
    assert w[..|ref|] == ref && w[|ref|..] == rest;
    ContentOfToken(env, prolog, at.open, at.enc, at.base, tags, w, f);
  }

  /** In the value of an attribute: its bytes are put into the pool, a space as a space. */
  lemma {:induction false} NumberAppended(internal: Encoding, dtd: Dtd, open: set<string>, enc: Encoding, isCdata: bool, hex: bool, digits: string, n: nat, rest: string, pool: string)
    requires Utf8(enc) && digits != "" && Spells(Base(hex), digits, n)
    ensures AppendValue(internal, dtd, open, enc, isCdata, Reference(hex, digits) + rest, pool) ==
            if XmlChar(n) then AppendValue(internal, dtd, open, enc, isCdata, rest, Put(isCdata, pool, Utf8Encode(n))) else ValueError(BadCharRef)
  {
    hide Utf8; hide Spells; hide Scan; hide Reference; hide CharRefNumber; hide Utf8Encode; hide ExpandEntity; hide IsDigit; hide XmlChar; hide Put; hide ValueRun;
    var ref := Reference(hex, digits);
    var w := ref + rest;
    SpelledDigits(hex, digits, n);
    NumberTok(enc, hex, digits, rest);
    NumberRead(hex, digits, n);
    assert AttributeValueTok(enc, w) == Tok(CharRef, |ref|);
    assert w[..|ref|] == ref && w[|ref|..] == rest;
    if XmlChar(n) { NumberPut(isCdata, pool, n); }
  }

  lemma {:induction false} NumberPut(isCdata: bool, pool: string, n: nat)
    requires XmlChar(n)
    ensures Utf8Encode(n) != ""
    ensures Put(isCdata, pool, Utf8Encode(n)) == if !isCdata && n == 0x20 && EndsInSpace(pool) then pool else pool + Utf8Encode(n)
  {
    hide Squeeze; hide AppendSpace;
    var u := Utf8Encode(n);
    if n == 0x20 {
      assert u == " ";
      PutSpace(isCdata, pool);
      SpaceIs(isCdata, pool);
    } else {
      assert ' ' !in u;
      PutSolid(isCdata, pool, u);
    }
  }

  lemma {:induction false} SpaceIs(isCdata: bool, pool: string)
    ensures AppendSpace(isCdata, pool) == if !isCdata && EndsInSpace(pool) then pool else pool + " "
  {
  }

  // ---- The bytes ----

  /** The character whose bytes are in front (section 3 of RFC 3629). */
  function Decoded(s: string): int
    requires |s| >= 1
  {
    var b := s[0] as int;
    if b < 0x80 then b
    else if b < 0xE0 && |s| >= 2 then (b - 0xC0) * 0x40 + (s[1] as int - 0x80)
    else if b < 0xF0 && |s| >= 3 then (b - 0xE0) * 0x1000 + (s[1] as int - 0x80) * 0x40 + (s[2] as int - 0x80)
    else if |s| >= 4 then (b - 0xF0) * 0x40000 + (s[1] as int - 0x80) * 0x1000 + (s[2] as int - 0x80) * 0x40 + (s[3] as int - 0x80)
    else -1
  }

  lemma {:induction false} EncodedDecodes(n: nat)
    requires n < 0x110000
    ensures Utf8Encode(n) != "" && Decoded(Utf8Encode(n)) == n
    ensures |Utf8Encode(n)| == if n < 0x80 then 1 else if n < 0x800 then 2 else if n < 0x10000 then 3 else 4
  {
    hide Utf8Encode; hide Decoded;
    if n < 0x800 { ShortDecodes(n); } else if n < 0x10000 { ThreeDecode(n); } else { FourDecode(n); }
  }

  lemma {:induction false} ShortDecodes(n: nat)
    requires n < 0x800
    ensures |Utf8Encode(n)| == (if n < 0x80 then 1 else 2) && Decoded(Utf8Encode(n)) == n
  {
  }

  lemma {:induction false} ThreeDecode(n: nat)
    requires 0x800 <= n < 0x10000
    ensures |Utf8Encode(n)| == 3 && Decoded(Utf8Encode(n)) == n
  {
    assert n / 0x1000 * 0x1000 + n / 0x40 % 0x40 * 0x40 + n % 0x40 == n;
  }

  lemma {:induction false} Quotients(n: nat)
    ensures n / 0x1000 == n / 0x40 / 0x40 && n / 0x40000 == n / 0x40 / 0x40 / 0x40
  {
  }

  lemma {:induction false} FourParts(n: nat)
    ensures n / 0x40000 * 0x40000 + n / 0x1000 % 0x40 * 0x1000 + n / 0x40 % 0x40 * 0x40 + n % 0x40 == n
  {
    Quotients(n);
    var a := n / 0x40;
    var b := a / 0x40;
    var c := b / 0x40;
    assert n == 0x40 * a + n % 0x40 && a == 0x40 * b + a % 0x40 && b == 0x40 * c + b % 0x40;
  }

  lemma {:induction false} FourDecode(n: nat)
    requires 0x10000 <= n < 0x110000
    ensures |Utf8Encode(n)| == 4 && Decoded(Utf8Encode(n)) == n
  {
    FourParts(n);
    FourBytes(n, n / 0x40000, n / 0x1000 % 0x40, n / 0x40 % 0x40, n % 0x40);
  }

  lemma {:induction false} FourBytes(n: nat, a: nat, b: nat, c: nat, d: nat)
    requires 0x10000 <= n < 0x110000 && a == n / 0x40000 && b == n / 0x1000 % 0x40 && c == n / 0x40 % 0x40 && d == n % 0x40
    ensures Utf8Encode(n) == [(0xF0 + a) as char, (0x80 + b) as char, (0x80 + c) as char, (0x80 + d) as char]
    ensures Decoded(Utf8Encode(n)) == a * 0x40000 + b * 0x1000 + c * 0x40 + d
  {
  }
}
