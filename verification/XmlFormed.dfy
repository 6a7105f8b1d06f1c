/**
 Well-formed UTF-8 (section 3 of RFC 3629), put together: the replacement text
 of an entity is made of whole characters.
 */
module XmlFormed {
  import opened XmlScan
  import opened XmlValue
  import opened XmlPrinted
  import opened XmlNormal
  import opened XmlWords
  import opened XmlRoundTrip
  import opened XmlCharRefs
  import opened XmlEntities
  import opened XmlLiterals

  function Utf8Length(c: char): (n: nat) ensures n >= 1 { CharLength(Utf8Type(c)) }

  /** A whole character in front. */
  predicate Front(s: string)
    requires s != ""
  {
    Utf8Length(s[0]) <= |s| && forall i :: 0 < i < Utf8Length(s[0]) ==> s[i] as int >= 0x80
  }

  /** Whole characters. */
  predicate Complete(s: string)
    decreases |s|
  {
    s == "" || (Front(s) && Complete(s[Utf8Length(s[0])..]))
  }

  lemma {:induction false} FrontBoth(a: string, b: string)
    requires a != "" && Front(a)
    ensures Front(a + b) && (a + b)[0] == a[0] && (a + b)[Utf8Length(a[0])..] == a[Utf8Length(a[0])..] + b
  {
    hide Utf8Length;
    assert forall i :: 0 <= i < |a| ==> (a + b)[i] == a[i];
  }

  lemma {:induction false} CompleteBoth(a: string, b: string)
    requires Complete(a) && Complete(b)
    ensures Complete(a + b)
    decreases |a|
  {
    hide Front; hide Utf8Length;
    if a == "" {
      assert a + b == b;
    } else {
      FrontBoth(a, b);
      FrontFits(a);
      CompleteBoth(a[Utf8Length(a[0])..], b);
    }
  }

  lemma {:induction false} FrontFits(s: string)
    requires s != "" && Front(s)
    ensures Utf8Length(s[0]) <= |s|
  {
  }

  lemma {:induction false} CompleteFormed(enc: Encoding, w: string, p: nat)
    requires Utf8(enc) && p <= |w| && Complete(w[p..])
    ensures WellFormed(enc, w, p)
    decreases |w| - p
  {
    hide Front; hide Utf8Length; hide CharLength;
    if p < |w| {
      var n := Utf8Length(w[p]);
      LengthIs(enc, w[p]);
      FrontFits(w[p..]);
      FrontTrails(w, p);
      assert w[p..][n..] == w[p + n..];
      CompleteFormed(enc, w, p + n);
    }
  }

  lemma {:induction false} FrontTrails(w: string, p: nat)
    requires p < |w| && Front(w[p..])
    ensures forall i :: p < i < p + Utf8Length(w[p]) && i < |w| ==> w[i] as int >= 0x80
  {
    forall i | p < i < p + Utf8Length(w[p]) && i < |w| ensures w[i] as int >= 0x80 { assert w[p..][i - p] == w[i]; }
  }

  lemma {:induction false} LengthIs(enc: Encoding, c: char)
    requires Utf8(enc)
    ensures CharLength(enc.byteType(c)) == Utf8Length(c)
  {
    if c != '\r' { assert enc.byteType(c) == Utf8Type(c); }
  }

  lemma {:induction false} LegalComplete(enc: Encoding, v: string)
    requires Utf8(enc) && LegalText(enc, v)
    ensures Complete(v)
    decreases |v|
  {
    hide Utf8; hide CharLength;
    if v != "" {
      FirstComplete(enc, v);
      LegalComplete(enc, v[LegalChar(enc, v)..]);
    }
  }

  lemma {:induction false} FirstComplete(enc: Encoding, v: string)
    requires Utf8(enc) && v != "" && LegalText(enc, v)
    ensures LegalChar(enc, v) == Utf8Length(v[0]) && forall i :: 0 < i < Utf8Length(v[0]) ==> v[i] as int >= 0x80
  {
    LengthIs(enc, v[0]);
  }

  lemma {:induction false} EncodedComplete(n: nat)
    requires n < 0x110000
    ensures Complete(Utf8Encode(n))
  {
    hide Complete; hide Utf8Length; hide Utf8Encode;
    EncodedBytes(n);
    CompleteOne(Utf8Encode(n));
  }

  lemma {:induction false} EncodedBytes(n: nat)
    requires n < 0x110000
    ensures var u := Utf8Encode(n); u != "" && |u| == Utf8Length(u[0]) && forall i :: 0 < i < |u| ==> u[i] as int >= 0x80
  {
  }

  lemma {:induction false} CompleteOne(u: string)
    requires u != "" && |u| == Utf8Length(u[0]) && forall i :: 0 < i < |u| ==> u[i] as int >= 0x80
    ensures Complete(u)
  {
    assert u[|u|..] == "" && Complete("");
  }

  lemma {:induction false} LinesComplete(s: string)
    requires Complete(s)
    ensures Complete(LineEnds(s))
    decreases |s|
  {
    hide LineEnds; hide Utf8Length;
    LinesUnfold(s);
    if s != "" {
      if s[0] == '\r' || s[0] == '\n' {
        NewlineComplete(s);
        LinesComplete(if s[0] == '\r' && |s| > 1 && s[1] == '\n' then s[2..] else s[1..]);
        CompleteBoth("\n", LineEnds(if s[0] == '\r' && |s| > 1 && s[1] == '\n' then s[2..] else s[1..]));
      } else {
        var n := Utf8Length(s[0]);
        LinesComplete(s[n..]);
        assert s[..n] + s[n..] == s;
        NoCrIn(s);
        LineEndsBehind(s[..n], s[n..]);
        CompleteOne(s[..n]);
        CompleteBoth(s[..n], LineEnds(s[n..]));
      }
    }
  }

  lemma {:induction false} LinesUnfold(s: string)
    ensures LineEnds(s) == if s == "" then "" else if s[0] == '\r' || s[0] == '\n' then "\n" + LineEnds(if s[0] == '\r' && |s| > 1 && s[1] == '\n' then s[2..] else s[1..])
                           else [s[0]] + LineEnds(s[1..])
  {
  }

  lemma {:induction false} NewlineComplete(s: string)
    requires s != "" && Complete(s) && (s[0] == '\r' || s[0] == '\n')
    ensures Complete(if s[0] == '\r' && |s| > 1 && s[1] == '\n' then s[2..] else s[1..]) && Complete("\n")
  {
    assert Utf8Length('\r') == 1 && Utf8Length('\n') == 1;
    assert Complete(s[1..]);
    if |s| > 1 && s[1] == '\n' { assert s[1..][0] == '\n' && s[1..][1..] == s[2..]; }
    assert "\n"[1..] == "";
  }

  lemma {:induction false} NoCrIn(s: string)
    requires s != "" && Complete(s) && s[0] != '\r'
    ensures var n := Utf8Length(s[0]); 1 <= n <= |s| && forall i :: 0 <= i < n ==> s[..n][i] != '\r'
  {
  }

  lemma {:induction false} ReferenceComplete(enc: Encoding, name: string)
    requires Utf8(enc) && LegalText(enc, name)
    ensures Complete(EntityReference(name))
  {
    hide Complete; hide Utf8Length; hide Utf8; hide LegalText;
    LegalComplete(enc, name);
    SignsComplete();
    CompleteBoth(name, ";");
    CompleteBoth("&", name + ";");
  }

  lemma {:induction false} SignsComplete()
    ensures Complete(";") && Complete("&")
  {
    assert Utf8Length(';') == 1 && Utf8Length('&') == 1 && ";"[1..] == "" && "&"[1..] == "";
  }

  lemma {:induction false} ReplacementComplete(enc: Encoding, l: seq<Piece>, c: char)
    requires Utf8(enc) && LegalPieces(enc, l, c) && AllChars(l)
    ensures Complete(Replacement(l))
    decreases |l|
  {
    hide Complete; hide Utf8Length; hide Utf8; hide LegalText; hide LegalName; hide Spells; hide LineEnds; hide Utf8Encode; hide EntityReference;
    if l == [] {
      NothingComplete();
    } else {
      FirstChar(l);
      ReplacementComplete(enc, l[1..], c);
      match l[0] {
        case Chars(text) => LegalComplete(enc, text); LinesComplete(text);
        case Number(_, _, n) => EncodedComplete(n);
        case Named(name) => ReferenceComplete(enc, name);
      }
      CompleteBoth(Replaced(l[0]), Replacement(l[1..]));
    }
  }

  lemma {:induction false} NothingComplete()
    ensures Complete("")
  {
  }

  lemma {:induction false} AsciiTable(enc: Encoding)
    requires Utf8(enc)
    ensures Ascii(enc) && enc.byteType(' ') == S
  {
    assert enc.byteType(' ') == Utf8Type(' ');
    forall c: char | c as int < 0x80 ensures LeadLength(enc.byteType(c)) == 0 { if c != '\r' { assert enc.byteType(c) == Utf8Type(c); } }
  }

  /** No token of the replacement text has a space among the bytes of a character. */
  lemma {:induction false} ReplacementSolid(enc: Encoding, internal: Encoding, l: seq<Piece>, c: char)
    requires Utf8(enc) && Utf8(internal) && LegalPieces(enc, l, c) && AllChars(l)
    ensures AllSolid(internal, Replacement(l))
  {
    hide Complete; hide Utf8; hide LegalPieces; hide AllChars; hide Replacement; hide WellFormed; hide AllSolid; hide Ascii;
    ReplacementComplete(enc, l, c);
    assert Replacement(l)[0..] == Replacement(l);
    CompleteFormed(internal, Replacement(l), 0);
    AsciiTable(internal);
    WellFormedSolid(internal, Replacement(l));
  }
}
