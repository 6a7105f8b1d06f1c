/**
 The converters of libjabber/xmltok.c: XmlUtf16Encode, and big2_toUtf8 and
 little2_toUtf8 with an output buffer that may be too small, against
 XmlUtf8Encode.  Shifts and masks of separate bits are written as arithmetic.
 */
module XmlTranscode {
  import opened XmlValue

  const UTF8_CVAL2 := 0xC0
  const UTF8_CVAL3 := 0xE0
  const UTF8_CVAL4 := 0xF0

  /** A Unicode scalar value: no surrogate. */
  predicate Scalar(c: int) { 0 <= c < 0xD800 || 0xE000 <= c < 0x110000 }

  predicate Scalars(cs: seq<int>) { forall i :: 0 <= i < |cs| ==> Scalar(cs[i]) }

  /** XmlUtf16Encode: no unit for a number that is no character. */
  function Utf16Encode(c: int): (u: seq<int>)
    ensures forall i :: 0 <= i < |u| ==> 0 <= u[i] < 0x10000
  {
    if c < 0 then []
    else if c < 0x10000 then [c]
    else if c < 0x110000 then [(c - 0x10000) / 0x400 + 0xD800, (c - 0x10000) % 0x400 + 0xDC00]
    else []
  }

  /** The bytes of the units, in one of the two orders. */
  function UnitBytes(big: bool, u: seq<int>): (s: string)
    requires forall i :: 0 <= i < |u| ==> 0 <= u[i] < 0x10000
    ensures |s| == 2 * |u|
  {
    if u == [] then ""
    else
      var hi, lo := (u[0] / 0x100) as char, (u[0] % 0x100) as char;
      (if big then [hi, lo] else [lo, hi]) + UnitBytes(big, u[1..])
  }

  function Utf16Char(big: bool, c: int): string { UnitBytes(big, Utf16Encode(c)) }

  function Utf16Text(big: bool, cs: seq<int>): string
  {
    if cs == [] then "" else Utf16Char(big, cs[0]) + Utf16Text(big, cs[1..])
  }

  function Utf8Text(cs: seq<int>): string
  {
    if cs == [] then "" else Utf8Encode(cs[0]) + Utf8Text(cs[1..])
  }

  /** GET_HI and GET_LO. */
  function Hi(big: bool, s: string, p: nat): (h: int)
    requires p + 1 < |s|
  {
    (if big then s[p] else s[p + 1]) as int
  }

  function Lo(big: bool, s: string, p: nat): (l: int)
    requires p + 1 < |s|
  {
    (if big then s[p + 1] else s[p]) as int
  }

  /** The arms of the switch in toUtf8, from the high and the low bytes of one or two units. */
  function TwoBytes(hi: int, lo: int): seq<int> { [lo / 64 + hi * 4 + UTF8_CVAL2, lo % 64 + 0x80] }

  function ThreeBytes(hi: int, lo: int): seq<int> { [hi / 16 + UTF8_CVAL3, hi % 16 * 4 + lo / 64 + 0x80, lo % 64 + 0x80] }

  function FourBytes(hi: int, lo: int, hi2: int, lo2: int): seq<int>
  {
    var plane := hi % 4 * 4 + lo / 64 + 1;
    [plane / 4 + UTF8_CVAL4, lo / 4 % 16 + plane % 4 * 16 + 0x80, lo % 4 * 16 + hi2 % 4 * 4 + lo2 / 64 + 0x80, lo2 % 64 + 0x80]
  }

  function Chars(b: seq<int>): (s: string)
    requires forall i :: 0 <= i < |b| ==> 0 <= b[i] < 0x100
    ensures |s| == |b|
  {
    seq(|b|, i requires 0 <= i < |b| => b[i] as char)
  }

  lemma {:induction false} TwoBytesRight(c: int)
    requires 0x80 <= c < 0x800
    ensures var b := TwoBytes(c / 0x100, c % 0x100);
            (forall i :: 0 <= i < |b| ==> 0 <= b[i] < 0x100) && Chars(b) == Utf8Encode(c)
  {
    assert c % 0x100 / 64 + c / 0x100 * 4 == c / 64;
    assert c % 0x100 % 64 == c % 64;
  }

  lemma {:induction false} ThreeBytesRight(c: int)
    requires 0x800 <= c < 0x10000
    ensures var b := ThreeBytes(c / 0x100, c % 0x100);
            (forall i :: 0 <= i < |b| ==> 0 <= b[i] < 0x100) && Chars(b) == Utf8Encode(c)
  {
    var hi, lo := c / 0x100, c % 0x100;
    var a, b, d, e := hi / 16, hi % 16, lo / 64, lo % 64;
    ThreeFields(c, a, b, d, e);
  }

  lemma {:induction false} ThreeFields(c: int, a: int, b: int, d: int, e: int)
    requires 0 <= b < 16 && 0 <= d < 4 && 0 <= e < 64 && c == 0x100 * (16 * a + b) + 64 * d + e
    ensures c / 0x1000 == a && c / 64 % 64 == 4 * b + d && c % 64 == e
  {
    assert c / 64 == 64 * a + 4 * b + d;
  }

  /** The bits of a character above 0xFFFF: the plane less one, and the fields that go to separate bytes. */
  lemma {:induction false} Fields(c: int) returns (p: int, s: int, t: int, r: int, e: int, f: int, g: int)
    requires 0x10000 <= c < 0x110000
    ensures 0 <= p < 4 && 0 <= s < 4 && 0 <= t < 16 && 0 <= r < 4 && 0 <= e < 4 && 0 <= f < 4 && 0 <= g < 64
    ensures c == 0x10000 + 0x400 * (256 * p + 64 * s + 4 * t + r) + 256 * e + 64 * f + g
  {
    var a, d := (c - 0x10000) / 0x400, (c - 0x10000) % 0x400;
    var t', r';
    p, s, t, r := FieldsOf(a);
    e, f, t', r' := FieldsOf(d);
    g := 4 * t' + r';
  }

  lemma {:induction false} FieldsOf(a: int) returns (p: int, s: int, t: int, r: int)
    requires 0 <= a < 0x400
    ensures 0 <= p < 4 && 0 <= s < 4 && 0 <= t < 16 && 0 <= r < 4 && a == 256 * p + 64 * s + 4 * t + r
  {
    var b, c := a / 4, a / 64;
    r, t := a % 4, b % 16;
    assert c == b / 16;
    p, s := c / 4, c % 4;
  }

  lemma {:induction false} UnitsFrom(c: int, p: int, s: int, t: int, r: int, e: int, f: int, g: int)
    requires 0 <= p < 4 && 0 <= s < 4 && 0 <= t < 16 && 0 <= r < 4 && 0 <= e < 4 && 0 <= f < 4 && 0 <= g < 64
    requires c == 0x10000 + 0x400 * (256 * p + 64 * s + 4 * t + r) + 256 * e + 64 * f + g
    ensures Utf16Encode(c) == [0x100 * (0xD8 + p) + 64 * s + 4 * t + r, 0x100 * (0xDC + e) + 64 * f + g]
  {
  }

  lemma {:induction false} BytesFrom(p: int, s: int, t: int, r: int, e: int, f: int, g: int)
    requires 0 <= p < 4 && 0 <= s < 4 && 0 <= t < 16 && 0 <= r < 4 && 0 <= e < 4 && 0 <= f < 4 && 0 <= g < 64
    ensures var plane := 4 * p + s + 1;
            FourBytes(0xD8 + p, 64 * s + 4 * t + r, 0xDC + e, 64 * f + g) ==
            [plane / 4 + UTF8_CVAL4, t + plane % 4 * 16 + 0x80, 16 * r + 4 * e + f + 0x80, g + 0x80]
  {
    assert (0xD8 + p) % 4 == p && (0xDC + e) % 4 == e;
    var lo := 64 * s + 4 * t + r;
    assert lo / 64 == s && lo % 4 == r && lo / 4 == 16 * s + t;
    assert lo / 4 % 16 == t;
    assert (64 * f + g) / 64 == f && (64 * f + g) % 64 == g;
  }

  lemma {:induction false} EncodedFrom(c: int, p: int, s: int, t: int, r: int, e: int, f: int, g: int)
    requires 0 <= p < 4 && 0 <= s < 4 && 0 <= t < 16 && 0 <= r < 4 && 0 <= e < 4 && 0 <= f < 4 && 0 <= g < 64
    requires c == 0x10000 + 0x400 * (256 * p + 64 * s + 4 * t + r) + 256 * e + 64 * f + g
    ensures var plane := 4 * p + s + 1;
            && c / 0x40000 == plane / 4 && c / 0x1000 % 64 == t + plane % 4 * 16 && c / 64 % 64 == 16 * r + 4 * e + f && c % 64 == g
  {
    var plane := 4 * p + s + 1;
    assert c / 64 == 1024 + 16 * (256 * p + 64 * s + 4 * t + r) + 4 * e + f;
    assert c / 64 == 64 * (16 * plane + t) + 16 * r + 4 * e + f;
    assert c / 0x1000 == 16 * plane + t;
    assert 16 * plane + t == 64 * (plane / 4) + 16 * (plane % 4) + t;
    assert c / 0x40000 == plane / 4;
  }

  /** The two units of a character above 0xFFFF. */
  lemma {:induction false} FourBytesRight(c: int)
    requires 0x10000 <= c < 0x110000
    ensures var u := Utf16Encode(c);
            var b := FourBytes(u[0] / 0x100, u[0] % 0x100, u[1] / 0x100, u[1] % 0x100);
            && (forall i :: 0 <= i < |b| ==> 0 <= b[i] < 0x100) && Chars(b) == Utf8Encode(c)
  {
    hide FourBytes;
    var p, s, t, r, e, f, g := Fields(c);
    UnitsFrom(c, p, s, t, r, e, f, g);
    HighLow(0xD8 + p, 64 * s + 4 * t + r);
    HighLow(0xDC + e, 64 * f + g);
    BytesFrom(p, s, t, r, e, f, g);
    EncodedFrom(c, p, s, t, r, e, f, g);
  }

  lemma {:induction false} HighLow(hi: int, lo: int)
    requires 0 <= lo < 0x100
    ensures (0x100 * hi + lo) / 0x100 == hi && (0x100 * hi + lo) % 0x100 == lo
  {
  }

  lemma {:induction false} TextSplit(big: bool, cs: seq<int>, k: nat)
    requires k < |cs|
    ensures Utf8Text(cs[..k + 1]) == Utf8Text(cs[..k]) + Utf8Encode(cs[k])
    ensures Utf16Text(big, cs[k..]) == Utf16Char(big, cs[k]) + Utf16Text(big, cs[k + 1..])
  {
    hide Utf16Char; hide Utf8Encode;
    assert cs[k..][0] == cs[k] && cs[k..][1..] == cs[k + 1..];
    assert [cs[k]][1..] == [];
    TextJoin(cs[..k], [cs[k]]);
    assert cs[..k] + [cs[k]] == cs[..k + 1];
  }

  lemma {:induction false} CharBytesAt(big: bool, s: string, p: nat, c: int, rest: string)
    requires Scalar(c) && p <= |s| && s[p..] == Utf16Char(big, c) + rest
    ensures var u := Utf16Encode(c);
            && |u| == (if c < 0x10000 then 1 else 2) && p + 2 * |u| <= |s| && s[p + 2 * |u|..] == rest
            && Hi(big, s, p) == u[0] / 0x100 && Lo(big, s, p) == u[0] % 0x100
            && (|u| == 2 ==> Hi(big, s, p + 2) == u[1] / 0x100 && Lo(big, s, p + 2) == u[1] % 0x100)
  {
    var u := Utf16Encode(c);
    var b := UnitBytes(big, u);
    assert forall i :: 0 <= i < |b| ==> s[p + i] == s[p..][i] == b[i];
    assert s[p..][|b|..] == rest;
    if |u| == 2 { assert u[1..] == [u[1]] && b[2..] == UnitBytes(big, [u[1]]); }
  }

  /** big2_toUtf8 and little2_toUtf8: whole characters are converted, as many as there is room for. */
  method ToUtf8(big: bool, s: string, start: nat, room: nat, ghost cs: seq<int>) returns (from: nat, out: string, ghost k: nat)
    requires Scalars(cs) && start <= |s| && s[start..] == Utf16Text(big, cs)
    ensures k <= |cs| && start <= from <= |s| && s[from..] == Utf16Text(big, cs[k..])
    ensures out == Utf8Text(cs[..k]) && |out| <= room
    ensures k < |cs| ==> |out| + |Utf8Encode(cs[k])| > room
    ensures k == |cs| <==> from == |s|
  {
    hide Utf16Text; hide Utf8Text; hide Utf16Char; hide Utf8Encode; hide Hi; hide Lo; hide Utf16Encode; hide TwoBytes; hide ThreeBytes; hide FourBytes;
    from, out, k := start, "", 0;
    Nothing(big, cs);
    while from != |s|
      invariant k <= |cs| && start <= from <= |s| && s[from..] == Utf16Text(big, cs[k..])
      invariant out == Utf8Text(cs[..k]) && |out| <= room
      invariant k == |cs| <==> from == |s|
      decreases |s| - from
    {
      ghost var c := cs[k];
      TextSplit(big, cs, k);
      CharBytesAt(big, s, from, c, Utf16Text(big, cs[k + 1..]));
      var hi, lo := Hi(big, s, from), Lo(big, s, from);
      UnitOf(c);
      if hi == 0 && lo < 0x80 {
        if |out| == room { return; }
        out := out + [lo as char];
      } else if hi < 8 {
        if room - |out| < 2 { return; }
        TwoBytesRight(c);
        out := out + Chars(TwoBytes(hi, lo));
      } else if 0xD8 <= hi <= 0xDB {
        if room - |out| < 4 { return; }
        FourBytesRight(c);
        from := from + 2;
        out := out + Chars(FourBytes(hi, lo, Hi(big, s, from), Lo(big, s, from)));
      } else {
        if room - |out| < 3 { return; }
        ThreeBytesRight(c);
        out := out + Chars(ThreeBytes(hi, lo));
      }
      from := from + 2;
      k := k + 1;
      Finished(big, cs, k);
    }
    assert cs[..|cs|] == cs;
  }

  lemma {:induction false} Nothing(big: bool, cs: seq<int>)
    ensures Utf8Text(cs[..0]) == "" && cs[0..] == cs
    ensures Scalars(cs) ==> (cs == [] <==> Utf16Text(big, cs) == "")
  {
    if Scalars(cs) && cs != [] { assert Scalar(cs[0]); }
  }

  lemma {:induction false} Finished(big: bool, cs: seq<int>, k: nat)
    requires k <= |cs| && Scalars(cs)
    ensures k == |cs| <==> Utf16Text(big, cs[k..]) == ""
  {
    if k < |cs| { assert Scalar(cs[k..][0]); }
  }

  /** What the first unit, and the length in UTF-8, say about a character. */
  lemma {:induction false} UnitOf(c: int)
    requires Scalar(c)
    ensures var u := Utf16Encode(c); var hi, lo := u[0] / 0x100, u[0] % 0x100;
            && (hi == 0 && lo < 0x80 <==> c < 0x80) && (c < 0x80 ==> Utf8Encode(c) == [lo as char])
            && (!(hi == 0 && lo < 0x80) && hi < 8 <==> 0x80 <= c < 0x800) && (0xD8 <= hi <= 0xDB <==> c >= 0x10000)
            && (c < 0x10000 ==> u == [c]) && |u| == (if c < 0x10000 then 1 else 2)
            && |Utf8Encode(c)| == if c < 0x80 then 1 else if c < 0x800 then 2 else if c < 0x10000 then 3 else 4
  {
  }

  lemma {:induction false} EncodedLength(c: int)
    ensures |Utf8Encode(c)| <= 4
  {
  }

  lemma {:induction false} Associated(x: string, y: string, z: string)
    ensures x + (y + z) == x + y + z
  {
  }

  lemma {:induction false} TextJoin(a: seq<int>, b: seq<int>)
    ensures Utf8Text(a + b) == Utf8Text(a) + Utf8Text(b)
    decreases |a|
  {
    hide Utf8Encode;
    if a == [] {
      assert a + b == b;
    } else {
      TextJoin(a[1..], b);
      assert (a + b)[0] == a[0] && (a + b)[1..] == a[1..] + b;
      Associated(Utf8Encode(a[0]), Utf8Text(a[1..]), Utf8Text(b));
    }
  }

  /** Conversion through output buffers of any sizes from four bytes on: it ends, and what comes out is the UTF-8 text. */
  method ConvertAll(big: bool, s: string, room: nat -> nat, ghost cs: seq<int>) returns (out: string)
    requires Scalars(cs) && s == Utf16Text(big, cs) && forall i :: room(i) >= 4
    ensures out == Utf8Text(cs)
  {
    hide Utf16Text; hide Utf8Text; hide Utf8Encode;
    out := "";
    var from, calls := 0, 0;
    ghost var done := 0;
    Nothing(big, cs);
    assert s[0..] == s;
    while from != |s|
      invariant done <= |cs| && from <= |s| && s[from..] == Utf16Text(big, cs[done..]) && out == Utf8Text(cs[..done])
      invariant done == |cs| <==> from == |s|
      decreases |cs| - done
    {
      ghost var k;
      var part;
      ghost var rest := cs[done..];
      from, part, k := ToUtf8(big, s, from, room(calls), rest);
      if k == 0 {
        Nothing(big, rest);
        EncodedLength(rest[0]);
      }
      TextJoin(cs[..done], rest[..k]);
      assert cs[..done] + rest[..k] == cs[..done + k] && rest[k..] == cs[done + k..];
      out := out + part;
      done := done + k;
      calls := calls + 1;
    }
    assert cs[..|cs|] == cs;
  }
}
