/**
 strescape and strunescape of libjabber/str.c, with their buffers.
 */
module XmlStr {
  import opened XmlTree

  /** The room the first loop of strescape counts for a character: for an escaped one, one byte more than is written. */
  function Room(c: char): nat
  {
    match c
    case '&' => 6
    case '\'' | '\"' => 7
    case '<' | '>' => 5
    case _ => 1
  }

  function TotalRoom(s: string): nat
  {
    if s == "" then 0 else TotalRoom(s[..|s| - 1]) + Room(s[|s| - 1])
  }

  lemma {:induction false} EscapeLast(s: string)
    requires s != ""
    ensures Escape(s) == Escape(s[..|s| - 1]) + EscapeChar(s[|s| - 1])
    decreases |s|
  {
    if |s| > 1 {
      EscapeLast(s[1..]);
      assert s[1..][..|s| - 2] == s[..|s| - 1][1..];
    }
  }

  lemma {:induction false} RoomOfPrefix(s: string, i: nat)
    requires i <= |s|
    ensures TotalRoom(s[..i]) <= TotalRoom(s)
    decreases |s| - i
  {
    if i < |s| {
      RoomOfPrefix(s, i + 1);
      assert s[..i + 1][..i] == s[..i];
    } else {
      assert s[..i] == s;
    }
  }

  lemma {:induction false} RoomFor(c: char)
    ensures |EscapeChar(c)| <= Room(c) && 1 <= Room(c) && (Room(c) == 1 ==> EscapeChar(c) == [c])
  {
  }

  lemma {:induction false} RoomLast(s: string)
    requires s != ""
    ensures TotalRoom(s) == TotalRoom(s[..|s| - 1]) + Room(s[|s| - 1])
  {
  }

  lemma {:induction false} RoomIsEnough(s: string)
    ensures |s| <= TotalRoom(s) && |Escape(s)| <= TotalRoom(s) && (TotalRoom(s) == |s| ==> Escape(s) == s)
    decreases |s|
  {
    if s != "" {
      hide *;
      var t, c := s[..|s| - 1], s[|s| - 1];
      RoomIsEnough(t);
      EscapeLast(s);
      RoomFor(c);
      RoomLast(s);
      assert s == t + [c];
    }
  }

  /** The first loop of strescape. */
  method CountRoom(buf: string) returns (newlen: nat)
    ensures newlen == TotalRoom(buf)
  {
    newlen := |buf|;
    for i := 0 to |buf|
      invariant newlen == TotalRoom(buf[..i]) + (|buf| - i)
    {
      assert buf[..i + 1][..i] == buf[..i];
      match buf[i]
      case '&' => newlen := newlen + 5;
      case '\'' | '\"' => newlen := newlen + 6;
      case '<' | '>' => newlen := newlen + 4;
      case _ =>
    }
    assert buf[..|buf|] == buf;
  }

  /** memcpy into the buffer. */
  method CopyPart(temp: array<char>, j: nat, part: string)
    requires j + |part| <= temp.Length
    modifies temp
    ensures temp[..j + |part|] == old(temp[..j]) + part
  {
    forall k | 0 <= k < |part| { temp[j + k] := part[k]; }
  }

  /** strescape; the buffer it allocates is large enough for every input. */
  method StrEscape(buf: string) returns (r: string)
    ensures r == Escape(buf)
  {
    hide Escape; hide EscapeChar;
    var newlen := CountRoom(buf);
    RoomIsEnough(buf);
    if |buf| == newlen { return buf; }
    var temp := new char[newlen + 1];
    var j := 0;
    assert buf[..0] == "" && Escape("") == "" by { NothingEscaped(); }
    for i := 0 to |buf|
      invariant 0 <= j <= newlen && temp[..j] == Escape(buf[..i])
    {
      assert buf[..i + 1][..i] == buf[..i];
      EscapeLast(buf[..i + 1]);
      RoomIsEnough(buf[..i + 1]);
      RoomOfPrefix(buf, i + 1);
      var part := EscapeChar(buf[i]);
      CopyPart(temp, j, part);
      j := j + |part|;
    }
    assert buf[..|buf|] == buf;
    temp[j] := '\0';
    return temp[..j];
  }

  lemma {:induction false} NothingEscaped()
    ensures Escape("") == ""
  {
  }

  // ---- Back ----

  /** The reference at the head of a text, by the comparisons of strunescape, and its length. */
  function Reference(s: string): (r: (char, nat))
    ensures r.1 <= |s|
  {
    if "&amp;" <= s then ('&', 5)
    else if "&quot;" <= s then ('\"', 6)
    else if "&apos;" <= s then ('\'', 6)
    else if "&lt;" <= s then ('<', 4)
    else if "&gt;" <= s then ('>', 4)
    else (' ', 0)
  }

  /** What strunescape leaves in its buffer, given what was there: behind an ampersand that starts none of the five
      references the byte is not written. */
  function Unescape(s: string, was: string): string
    requires |was| >= |s|
    decreases |s|
  {
    if s == "" then ""
    else if s[0] == '&' then
      var r := Reference(s);
      if r.1 > 0 then [r.0] + Unescape(s[r.1..], was[1..]) else [was[0]] + Unescape(s[1..], was[1..])
    else [s[0]] + Unescape(s[1..], was[1..])
  }

  lemma {:induction false} ReferenceOf(c: char, rest: string)
    requires EscapeChar(c) != [c]
    ensures Reference(EscapeChar(c) + rest) == (c, |EscapeChar(c)|) && EscapeChar(c)[0] == '&'
  {
    var s := EscapeChar(c) + rest;
    assert EscapeChar(c) <= s;
    assert c != '&' ==> s[1] != 'a' || s[2] != 'm';
  }

  /** Every text comes back from its escaped form, whatever was in the buffer. */
  lemma {:induction false} UnescapeEscape(s: string, was: string)
    requires |was| >= |Escape(s)|
    ensures Unescape(Escape(s), was) == s
    decreases |s|
  {
    if s != "" {
      var e, rest := EscapeChar(s[0]), Escape(s[1..]);
      assert Escape(s) == e + rest;
      UnescapeEscape(s[1..], was[1..]);
      assert (e + rest)[|e|..] == rest;
      if e == [s[0]] {
        assert s[0] != '&';
      } else {
        ReferenceOf(s[0], rest);
      }
      assert s == [s[0]] + s[1..];
    }
  }

  /** Every ampersand starts a reference. */
  predicate Escaped(s: string)
    decreases |s|
  {
    s == "" || (if s[0] == '&' then Reference(s).1 > 0 && Escaped(s[Reference(s).1..]) else Escaped(s[1..]))
  }

  /** The result depends on what was in the buffer exactly when some ampersand starts no reference. */
  lemma {:induction false} UnescapeDefined(s: string, was: string, was': string)
    requires |was| >= |s| && |was'| >= |s|
    requires forall i :: 0 <= i < |s| ==> was[i] != was'[i]
    ensures Unescape(s, was) == Unescape(s, was') <==> Escaped(s)
    decreases |s|
  {
    if s != "" {
      var n := if s[0] == '&' && Reference(s).1 > 0 then Reference(s).1 else 1;
      UnescapeDefined(s[n..], was[1..], was'[1..]);
      var a, b := Unescape(s, was), Unescape(s, was');
      assert a[1..] == Unescape(s[n..], was[1..]) && b[1..] == Unescape(s[n..], was'[1..]);
      assert a == b <==> a[0] == b[0] && a[1..] == b[1..] by {
        if a[0] == b[0] && a[1..] == b[1..] { assert a == [a[0]] + a[1..] && b == [b[0]] + b[1..]; }
      }
    }
  }

  lemma {:induction false} UnescapeHead(s: string, was: string)
    requires s != "" && |was| > |s|
    ensures var r := Reference(s); var n := if s[0] == '&' && r.1 > 0 then r.1 else 1; var c := if s[0] != '&' then s[0] else if r.1 > 0 then r.0 else was[0];
            n <= |s| && Unescape(s, was) == [c] + Unescape(s[n..], was[1..])
  {
    hide Reference;
  }

  lemma {:induction false} UnescapeStep(s: string, was: string, done: string, i: nat)
    requires i < |s| && |was| > |s| && |done| <= i
    ensures var r := Reference(s[i..]); var n := if s[i] == '&' && r.1 > 0 then r.1 else 1; var c := if s[i] != '&' then s[i] else if r.1 > 0 then r.0 else was[|done|];
            i + n <= |s| && done + Unescape(s[i..], was[|done|..]) == (done + [c]) + Unescape(s[i + n..], was[|done| + 1..])
  {
    hide Reference; hide Unescape;
    var r := Reference(s[i..]);
    var n := if s[i] == '&' && r.1 > 0 then r.1 else 1;
    UnescapeHead(s[i..], was[|done|..]);
    assert s[i..][n..] == s[i + n..] && was[|done|..][1..] == was[|done| + 1..];
  }

  /** The buffer `t`, which held `was`, when `i` bytes have been read and `j` written. */
  ghost predicate Written(buf: string, was: string, t: string, i: nat, j: nat)
  {
    && j <= i <= |buf| < |t| == |was|
    && t[..j] + Unescape(buf[i..], was[j..]) == Unescape(buf, was)
    && t[j..] == was[j..]
  }

  lemma {:induction false} NothingWritten(buf: string, was: string)
    requires |buf| < |was|
    ensures Written(buf, was, was, 0, 0)
  {
    hide Unescape;
    assert buf[0..] == buf && was[0..] == was && was[..0] == "";
  }

  /** One turn: a byte is written, or skipped behind an ampersand that starts no reference. */
  lemma {:induction false} WrittenNext(buf: string, was: string, t: string, i: nat, j: nat)
    requires Written(buf, was, t, i, j) && i < |buf|
    ensures var r := Reference(buf[i..]);
            && j < |t|
            && (buf[i] != '&' ==> Written(buf, was, t[j := buf[i]], i + 1, j + 1))
            && (buf[i] == '&' && r.1 > 0 ==> Written(buf, was, t[j := r.0], i + r.1, j + 1))
            && (buf[i] == '&' && r.1 == 0 ==> Written(buf, was, t, i + 1, j + 1))
  {
    hide Unescape; hide Reference;
    var r := Reference(buf[i..]);
    var n := if buf[i] == '&' && r.1 > 0 then r.1 else 1;
    var c := if buf[i] != '&' then buf[i] else if r.1 > 0 then r.0 else was[j];
    UnescapeStep(buf, was, t[..j], i);
    assert t[j..][0] == was[j..][0] && t[j..][1..] == was[j..][1..];
    assert t[j := c][..j + 1] == t[..j] + [c] && t[j := c][j + 1..] == t[j + 1..] == was[j + 1..];
    if buf[i] == '&' && r.1 == 0 { assert t[j := c] == t; }
  }

  lemma {:induction false} AllWritten(buf: string, was: string, t: string, j: nat)
    requires Written(buf, was, t, |buf|, j)
    ensures j < |t| && t[..j] == Unescape(buf, was)
  {
    assert buf[|buf|..] == "";
  }

  /** strunescape. */
  method StrUnescape(buf: string, temp: array<char>) returns (r: string)
    requires temp.Length == |buf| + 1
    modifies temp
    ensures r == if '&' in buf then Unescape(buf, old(temp[..])) else buf
  {
    if '&' !in buf { return buf; }
    hide Unescape; hide Reference; hide Written;
    var i, j := 0, 0;
    ghost var was := temp[..];
    NothingWritten(buf, was);
    while i < |buf|
      invariant Written(buf, was, temp[..], i, j) && i <= |buf|
    {
      WrittenNext(buf, was, temp[..], i, j);
      var ref := Reference(buf[i..]);
      if buf[i] == '&' {
        if ref.1 > 0 {
          Put(temp, j, ref.0);
          i := i + ref.1 - 1;
        }
      } else {
        Put(temp, j, buf[i]);
      }
      j := j + 1;
      i := i + 1;
    }
    AllWritten(buf, was, temp[..], j);
    Put(temp, j, '\0');
    r := temp[..][..j];
  }

  method Put(temp: array<char>, j: nat, c: char)
    requires j < temp.Length
    modifies temp
    ensures temp[..] == old(temp[..])[j := c]
  {
    temp[j] := c;
  }
}
