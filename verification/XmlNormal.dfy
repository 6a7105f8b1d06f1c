/**
 The fast path of attribute values: getAtts marks a value as normalized, and
 storeAtts (libjabber/xmlparse.c) then copies it instead of calling
 storeAttributeValue.  Here the two are compared, for every start tag.
 */
module XmlNormal {
  import opened XmlScan
  import opened XmlTok
  import opened XmlAtts
  import opened XmlValue
  import opened XmlPrinted

  function CharLength(t: ByteType): nat { if LeadLength(t) == 0 then 1 else LeadLength(t) }

  /** The slow path on a plain value, one character at a time. */
  function Squeezed(enc: Encoding, isCdata: bool, w: string, p: nat, pool: string): string
    decreases |w| - p
  {
    if p >= |w| then pool
    else
      var t := enc.byteType(w[p]);
      if t == S then Squeezed(enc, isCdata, w, p + 1, AppendSpace(isCdata, pool))
      else Squeezed(enc, isCdata, w, p + CharLength(t), pool + Slice(w, p, p + CharLength(t)))
  }

  /**
   No white space, and not the end of the value, comes behind a character of
   several bytes whose last byte is a space; `behind` says whether `p` does.
   */
  predicate NoFalseSpace(enc: Encoding, w: string, p: nat, behind: bool)
    decreases |w| - p
  {
    if p >= |w| then !behind
    else
      var t := enc.byteType(w[p]);
      if t == S then !behind && NoFalseSpace(enc, w, p + 1, false)
      else NoFalseSpace(enc, w, p + CharLength(t), p + CharLength(t) <= |w| && w[p + CharLength(t) - 1] == ' ')
  }

  /** What plainness says about the character in front. */
  predicate PlainChar(enc: Encoding, s: string, from: nat, p: nat, end: nat)
    requires p < end <= |s|
  {
    var t := enc.byteType(s[p]);
    && t != AMP && t != CR && t != LF && t != LT && p + CharLength(t) <= end
    && (t == S ==> s[p] == ' ' && p != from && p + 1 < end && s[p + 1] != ' ')
  }

  lemma {:induction false} PlainUnfold(enc: Encoding, s: string, from: nat, p: nat, end: nat)
    requires p < end <= |s|
    ensures Plain(enc, s, from, p, end) <==>
            PlainChar(enc, s, from, p, end) && Plain(enc, s, from, p + CharLength(enc.byteType(s[p])), end)
  {
  }

  lemma {:induction false} SqueezedUnfold(enc: Encoding, isCdata: bool, w: string, p: nat, pool: string)
    requires p < |w|
    ensures var n := CharLength(enc.byteType(w[p]));
            Squeezed(enc, isCdata, w, p, pool) ==
            Squeezed(enc, isCdata, w, p + n, if enc.byteType(w[p]) == S then AppendSpace(isCdata, pool) else pool + Slice(w, p, p + n))
  {
    hide AppendSpace; hide Slice;
  }

  lemma {:induction false} RunUnfold(enc: Encoding, w: string, p: nat)
    requires p < |w| && PlainChar(enc, w, |w|, p, |w|)
    ensures enc.byteType(w[p]) == S ==> ValueRun(enc, w, p) == Tok(DataChars, p)
    ensures enc.byteType(w[p]) != S ==> ValueRun(enc, w, p) == ValueRun(enc, w, p + CharLength(enc.byteType(w[p])))
  {
  }

  /** Where the value stands in a longer text does not matter. */
  lemma {:induction false} PlainMoved(enc: Encoding, s: string, from: nat, p: nat, end: nat, t: string, from': nat, shift: nat)
    requires p <= end <= |s| && shift <= p && t == s[shift..end] && Plain(enc, s, from, p, end)
    requires from' + shift == from || from' + shift >= end
    ensures Plain(enc, t, from', p - shift, end - shift)
    decreases end - p
  {
    hide Plain; hide CharLength;
    if p < end {
      assert t[p - shift] == s[p];
      var n := CharLength(enc.byteType(s[p]));
      if p + 1 < end { assert t[p + 1 - shift] == s[p + 1]; }
      PlainUnfold(enc, s, from, p, end);
      PlainUnfold(enc, t, from', p - shift, end - shift);
      LengthOf(enc.byteType(s[p]));
      PlainMoved(enc, s, from, p + n, end, t, from', shift);
    } else {
      assert Plain(enc, t, from', p - shift, end - shift) by { PlainNothing(enc, t, from', p - shift); }
    }
  }

  lemma {:induction false} PlainNothing(enc: Encoding, s: string, from: nat, end: nat)
    requires end <= |s|
    ensures Plain(enc, s, from, end, end)
  {
  }

  /** A plain rest of a value: white space may come first. */
  predicate PlainRest(enc: Encoding, w: string) { Plain(enc, w, |w|, 0, |w|) }

  lemma {:induction false} RestPlain(enc: Encoding, w: string, from: nat, p: nat)
    requires p <= |w| && Plain(enc, w, from, p, |w|)
    ensures PlainRest(enc, w[p..])
  {
    PlainMoved(enc, w, from, p, |w|, w[p..], |w| - p, p);
  }

  lemma {:induction false} RunEnd(enc: Encoding, w: string)
    ensures ValueRun(enc, w, |w|) == Tok(DataChars, |w|)
  {
  }

  /** A run of data in a plain value stops at white space or the end, and the slow path takes it whole. */
  lemma {:induction false} RunSqueezed(enc: Encoding, isCdata: bool, w: string, from: nat, p: nat, pool: string)
    requires p <= |w| && Plain(enc, w, from, p, |w|)
    ensures var v := ValueRun(enc, w, p);
            && v.Tok? && v.tok == DataChars && p <= v.next <= |w| && Plain(enc, w, from, v.next, |w|)
            && (v.next == p ==> p == |w| || enc.byteType(w[p]) == S)
            && Squeezed(enc, isCdata, w, p, pool) == Squeezed(enc, isCdata, w, v.next, pool + w[p..v.next])
    decreases |w| - p
  {
    hide Plain; hide Squeezed; hide ValueRun; hide CharLength;
    if p < |w| {
      PlainUnfold(enc, w, from, p, |w|);
      RunUnfold(enc, w, p);
    }
    if p == |w| || enc.byteType(w[p]) == S {
      assert ValueRun(enc, w, p) == Tok(DataChars, p) by { RunEnd(enc, w); }
      assert pool + w[p..p] == pool;
    } else {
      var n := CharLength(enc.byteType(w[p]));
      SqueezedUnfold(enc, isCdata, w, p, pool);
      LengthOf(enc.byteType(w[p]));
      RunSqueezed(enc, isCdata, w, from, p + n, pool + w[p..p + n]);
      var next := ValueRun(enc, w, p + n).next;
      Joined(pool, w, p, p + n, next);
    }
  }

  lemma {:induction false} SqueezedNothing(enc: Encoding, isCdata: bool, w: string, p: nat, pool: string)
    requires p >= |w|
    ensures Squeezed(enc, isCdata, w, p, pool) == pool
  {
  }

  lemma {:induction false} LengthOf(t: ByteType)
    ensures CharLength(t) >= 1 && (t == S ==> CharLength(t) == 1)
  {
  }

  lemma {:induction false} Joined(pool: string, w: string, p: nat, q: nat, r: nat)
    requires p <= q <= r <= |w|
    ensures pool + w[p..q] + w[q..r] == pool + w[p..r]
    ensures r == |w| ==> w[q..r] == w[q..] && w[p..r] == w[p..]
  {
  }

  /** Squeezing the rest does not depend on what was before it. */
  lemma {:induction false} SqueezedMoved(enc: Encoding, isCdata: bool, w: string, p: nat, shift: nat, pool: string)
    requires shift <= p && shift <= |w|
    ensures Squeezed(enc, isCdata, w[shift..], p - shift, pool) == Squeezed(enc, isCdata, w, p, pool)
    decreases |w| - p
  {
    hide Squeezed; hide CharLength;
    if p >= |w| {
      SqueezedNothing(enc, isCdata, w, p, pool);
      SqueezedNothing(enc, isCdata, w[shift..], p - shift, pool);
    } else {
      assert w[shift..][p - shift] == w[p];
      var t := enc.byteType(w[p]);
      SqueezedUnfold(enc, isCdata, w, p, pool);
      SqueezedUnfold(enc, isCdata, w[shift..], p - shift, pool);
      LengthOf(t);
      if t == S {
        SqueezedMoved(enc, isCdata, w, p + 1, shift, AppendSpace(isCdata, pool));
      } else {
        var n := CharLength(t);
        if p + n <= |w| { assert w[shift..][p - shift..p - shift + n] == w[p..p + n]; }
        SqueezedMoved(enc, isCdata, w, p + n, shift, pool + Slice(w, p, p + n));
      }
    }
  }

  /** The first turn of appendAttributeValue on a plain value. */
  lemma {:induction false} AppendPlainTurn(internal: Encoding, dtd: Dtd, open: set<string>, enc: Encoding, isCdata: bool, w: string, pool: string)
    requires PlainRest(enc, w)
    ensures w == "" ==> AppendValue(internal, dtd, open, enc, isCdata, w, pool) == Value(pool)
    ensures w != "" && enc.byteType(w[0]) == S ==>
              AppendValue(internal, dtd, open, enc, isCdata, w, pool) == AppendValue(internal, dtd, open, enc, isCdata, w[1..], AppendSpace(isCdata, pool))
    ensures w != "" && enc.byteType(w[0]) != S ==>
              var v := ValueRun(enc, w, 0);
              v.Tok? && 0 < v.next <= |w| &&
              AppendValue(internal, dtd, open, enc, isCdata, w, pool) == AppendValue(internal, dtd, open, enc, isCdata, w[v.next..], pool + w[..v.next])
  {
    hide ExpandEntity; hide Plain; hide ValueRun; hide Squeezed;
    if w != "" {
      PlainUnfold(enc, w, |w|, 0, |w|);
      if enc.byteType(w[0]) != S { RunSqueezed(enc, isCdata, w, |w|, 0, pool); }
    }
  }

  /** appendAttributeValue on a plain value. */
  lemma {:induction false} AppendPlain(internal: Encoding, dtd: Dtd, open: set<string>, enc: Encoding, isCdata: bool, w: string, pool: string)
    requires PlainRest(enc, w)
    ensures AppendValue(internal, dtd, open, enc, isCdata, w, pool) == Value(Squeezed(enc, isCdata, w, 0, pool))
    decreases |w|
  {
    hide ExpandEntity; hide AppendValue; hide Squeezed; hide Plain; hide ValueRun;
    AppendPlainTurn(internal, dtd, open, enc, isCdata, w, pool);
    if w == "" {
      SqueezedNothing(enc, isCdata, w, 0, pool);
    } else {
      if enc.byteType(w[0]) == S {
        SqueezedUnfold(enc, isCdata, w, 0, pool);
        PlainUnfold(enc, w, |w|, 0, |w|);
        LengthOf(S);
        RestPlain(enc, w, |w|, 1);
        AppendPlain(internal, dtd, open, enc, isCdata, w[1..], AppendSpace(isCdata, pool));
        SqueezedMoved(enc, isCdata, w, 1, 1, AppendSpace(isCdata, pool));
      } else {
        RunSqueezed(enc, isCdata, w, |w|, 0, pool);
        var next := ValueRun(enc, w, 0).next;
        RestPlain(enc, w, |w|, next);
        AppendPlain(internal, dtd, open, enc, isCdata, w[next..], pool + w[..next]);
        SqueezedMoved(enc, isCdata, w, next, next, pool + w[..next]);
      }
    }
  }

  lemma {:induction false} SqueezedCdata(enc: Encoding, w: string, from: nat, p: nat, pool: string)
    requires p <= |w| && Plain(enc, w, from, p, |w|)
    ensures Squeezed(enc, true, w, p, pool) == pool + w[p..]
    decreases |w| - p
  {
    hide Squeezed; hide Plain; hide CharLength;
    if p == |w| {
      SqueezedNothing(enc, true, w, p, pool);
    } else {
      var n := CharLength(enc.byteType(w[p]));
      LengthOf(enc.byteType(w[p]));
      PlainUnfold(enc, w, from, p, |w|);
      SqueezedUnfold(enc, true, w, p, pool);
      if enc.byteType(w[p]) == S { assert w[p..p + 1] == " "; }
      SqueezedCdata(enc, w, from, p + n, pool + w[p..p + n]);
      Joined(pool, w, p, p + n, |w|);
    }
  }

  function Chopped(text: string): string
  {
    if text != "" && EndsInSpace(text) then text[..|text| - 1] else text
  }

  lemma {:induction false} SqueezedShorter(enc: Encoding, w: string, from: nat, p: nat, pool: string)
    requires p <= |w| && Plain(enc, w, from, p, |w|)
    ensures |Squeezed(enc, false, w, p, pool)| <= |pool| + |w| - p
    decreases |w| - p
  {
    if p < |w| {
      var n := CharLength(enc.byteType(w[p]));
      SqueezedShorter(enc, w, from, p + n, if enc.byteType(w[p]) == S then AppendSpace(false, pool) else pool + w[p..p + n]);
    }
  }

  lemma {:induction false} NoFalseSpaceUnfold(enc: Encoding, w: string, p: nat, behind: bool)
    requires p < |w| && p + CharLength(enc.byteType(w[p])) <= |w|
    ensures var t := enc.byteType(w[p]); var n := CharLength(t);
            NoFalseSpace(enc, w, p, behind) <==>
            !(t == S && behind) && NoFalseSpace(enc, w, p + n, t != S && w[p + n - 1] == ' ')
  {
  }

  lemma {:induction false} AtValueEnd(enc: Encoding, w: string, pool: string, behind: bool)
    requires pool != "" && (behind <==> EndsInSpace(pool))
    ensures Chopped(pool) == pool + w[|w|..] <==> NoFalseSpace(enc, w, |w|, behind)
  {
    assert w[|w|..] == "" && pool + "" == pool;
  }

  lemma {:induction false} ChoppedShorter(text: string)
    ensures |Chopped(text)| <= |text|
  {
  }

  lemma {:induction false} SqueezedTokens(enc: Encoding, w: string, from: nat, p: nat, pool: string, behind: bool)
    requires p <= |w| && Plain(enc, w, from, p, |w|)
    requires p == |w| || enc.byteType(w[p]) == S ==> pool != "" && (behind <==> EndsInSpace(pool))
    ensures Chopped(Squeezed(enc, false, w, p, pool)) == pool + w[p..] <==> NoFalseSpace(enc, w, p, behind)
    decreases |w| - p
  {
    hide Squeezed; hide Plain; hide CharLength; hide NoFalseSpace; hide Chopped;
    if p == |w| {
      SqueezedNothing(enc, false, w, p, pool);
      AtValueEnd(enc, w, pool, behind);
    } else {
      var t := enc.byteType(w[p]);
      var n := CharLength(t);
      LengthOf(t);
      PlainUnfold(enc, w, from, p, |w|);
      SqueezedUnfold(enc, false, w, p, pool);
      NoFalseSpaceUnfold(enc, w, p, behind);
      if t == S && behind {
        SqueezedShorter(enc, w, from, p + 1, pool);
        ChoppedShorter(Squeezed(enc, false, w, p + 1, pool));
      } else {
        if t == S {
          assert w[p..p + 1] == " ";
          PlainUnfold(enc, w, from, p + 1, |w|);
        }
        SqueezedTokens(enc, w, from, p + n, pool + w[p..p + n], t != S && w[p + n - 1] == ' ');
        Joined(pool, w, p, p + n, |w|);
      }
    }
  }

  /** The fast path on one plain value: for CDATA it is right, for other types exactly if there is no false space. */
  lemma {:induction false} PlainStored(internal: Encoding, dtd: Dtd, open: set<string>, enc: Encoding, w: string)
    requires Plain(enc, w, 0, 0, |w|)
    ensures StoreValue(internal, dtd, open, enc, true, w) == Value(w)
    ensures StoreValue(internal, dtd, open, enc, false, w) == Value(w) <==> w == "" || NoFalseSpace(enc, w, 0, false)
  {
    assert PlainRest(enc, w) by { assert w[0..] == w; RestPlain(enc, w, 0, 0); }
    AppendPlain(internal, dtd, open, enc, true, w, "");
    AppendPlain(internal, dtd, open, enc, false, w, "");
    SqueezedCdata(enc, w, 0, 0, "");
    assert "" + w[0..] == w;
    if w != "" { SqueezedTokens(enc, w, 0, 0, "", false); }
  }

  /** On any start tag the tokenizer accepts: a value marked normalized is stored as the slow path would store it, in those cases. */
  lemma {:induction false} FastPathStores(internal: Encoding, dtd: Dtd, open: set<string>, enc: Encoding, w: string, i: nat)
    requires w != "" && enc.byteType(w[0]) == LT && enc.byteType('x') == NMSTRT
    requires var v := ContentTok(enc, w); v.Tok? && StartTag(v.tok)
    requires var r := GetAtts(enc, w[..ContentTok(enc, w).next], 1, GETTER_START); r.Atts? && i < |r.list| && r.list[i].normalized
    ensures var tag := w[..ContentTok(enc, w).next]; var a := GetAtts(enc, tag, 1, GETTER_START).list[i];
            var raw := Slice(tag, a.valuePtr, a.valueEnd);
            && StoreValue(internal, dtd, open, enc, true, raw) == Value(raw)
            && (StoreValue(internal, dtd, open, enc, false, raw) == Value(raw) <==> raw == "" || NoFalseSpace(enc, raw, 0, false))
  {
    hide StoreValue; hide GetAtts; hide ContentTok; hide Passed; hide Plain; hide NoFalseSpace;
    TagAttributes(enc, w);
    var tag := w[..ContentTok(enc, w).next];
    var a := GetAtts(enc, tag, 1, GETTER_START).list[i];
    var raw := tag[a.valuePtr..a.valueEnd];
    assert MarkedPlain(enc, tag, a);
    PlainMoved(enc, tag, a.valuePtr, a.valuePtr, a.valueEnd, raw, 0, a.valuePtr);
    PlainStored(internal, dtd, open, enc, raw);
  }

  /** Characters of several bytes have no byte below 0x80 behind their first, as section 3 of RFC 3629 has it. */
  predicate WellFormed(enc: Encoding, w: string, p: nat)
    decreases |w| - p
  {
    p >= |w| ||
    (var n := CharLength(enc.byteType(w[p]));
     (forall i :: p < i < p + n && i < |w| ==> w[i] as int >= 0x80) && WellFormed(enc, w, p + n))
  }

  /** With the UTF-8 table and well-formed text there is none. */
  lemma {:induction false} WellFormedStored(enc: Encoding, w: string, p: nat, from: nat)
    requires Utf8(enc) && p <= |w| && WellFormed(enc, w, p) && Plain(enc, w, from, p, |w|)
    ensures NoFalseSpace(enc, w, p, false)
    decreases |w| - p
  {
    if p < |w| {
      assert enc.byteType(w[p]) == Utf8Type(w[p]);
      var n := CharLength(enc.byteType(w[p]));
      if n == 1 && w[p] == ' ' { assert enc.byteType(' ') == S; }
      WellFormedStored(enc, w, p + n, from);
    }
  }

  /** utf8_isInvalid2 is isNever: the tokenizer does not look at the second byte of a two-byte character. */
  ghost predicate TakesPairs(enc: Encoding)
  {
    Utf8(enc) && forall c: string :: |c| == 2 ==> !enc.isInvalid(c)
  }

  lemma {:induction false} PairsUtf8(enc: Encoding)
    requires TakesPairs(enc)
    ensures Utf8(enc)
  {
  }

  const FALSE_SPACE: string := [195 as char, ' ']

  /** The tag <a b='..'>, with the two bytes C3 20 for its value. */
  const FALSE_SPACE_TAG: string := "<a b='" + FALSE_SPACE + "'>"

  lemma {:induction false} TagBytes()
    ensures |FALSE_SPACE_TAG| == 10 && FALSE_SPACE_TAG[6..8] == FALSE_SPACE
    ensures FALSE_SPACE_TAG == ['<', 'a', ' ', 'b', '=', '\'', 195 as char, ' ', '\'', '>']
  {
  }

  lemma {:induction false} TagTypes(enc: Encoding)
    requires Utf8(enc)
    ensures enc.byteType('<') == LT && enc.byteType('a') == HEX && enc.byteType(' ') == S && enc.byteType('b') == HEX
    ensures enc.byteType('=') == EQUALS && enc.byteType('\'') == APOS && enc.byteType(195 as char) == LEAD2 && enc.byteType('>') == GT
    ensures enc.byteType('x') == NMSTRT
  {
    assert Utf8Type('<') == LT && Utf8Type('a') == HEX && Utf8Type('\'') == APOS && Utf8Type(195 as char) == LEAD2;
  }

  lemma {:induction false} NameSteps(enc: Encoding)
    requires TakesPairs(enc)
    ensures |FALSE_SPACE_TAG| == 10
    ensures var w := FALSE_SPACE_TAG;
            && Step(enc, LtOpen, w[1..]) == Go(1, TagName) && Step(enc, TagName, w[2..]) == Go(1, TagSpace)
            && Step(enc, TagSpace, w[3..]) == Go(1, AttName)
  {
    hide Step; hide TakesPairs; hide Utf8; hide FALSE_SPACE_TAG;
    TagBytes();
    TagTypes(enc) by { PairsUtf8(enc); }
    var w := FALSE_SPACE_TAG;
    StepBy(enc, LtOpen, w[1..]);
    StepBy(enc, TagName, w[2..]);
    StepBy(enc, TagSpace, w[3..]);
  }

  lemma {:induction false} AttSteps(enc: Encoding)
    requires TakesPairs(enc)
    ensures |FALSE_SPACE_TAG| == 10
    ensures var w := FALSE_SPACE_TAG;
            && Step(enc, AttName, w[4..]) == Go(1, AttEq) && Step(enc, AttEq, w[5..]) == Go(1, AttValue(APOS))
            && Step(enc, AttValue(APOS), w[8..]) == Go(1, AttValueEnd) && Step(enc, AttValueEnd, w[9..]) == Accept(StartTagWithAtts, 1)
  {
    hide Step; hide TakesPairs; hide Utf8; hide FALSE_SPACE_TAG;
    TagBytes();
    TagTypes(enc) by { PairsUtf8(enc); }
    var w := FALSE_SPACE_TAG;
    StepBy(enc, AttName, w[4..]);
    StepBy(enc, AttEq, w[5..]);
    StepBy(enc, AttValue(APOS), w[8..]);
    StepBy(enc, AttValueEnd, w[9..]);
  }

  lemma {:induction false} PairStep(enc: Encoding)
    requires TakesPairs(enc)
    ensures |FALSE_SPACE_TAG| == 10 && Step(enc, AttValue(APOS), FALSE_SPACE_TAG[6..]) == Go(2, AttValue(APOS))
  {
    hide Step;
    TagBytes();
    TagTypes(enc);
    assert FALSE_SPACE_TAG[6..][..2] == FALSE_SPACE;
    StepBy(enc, AttValue(APOS), FALSE_SPACE_TAG[6..]);
  }

  lemma {:induction false} TagTok(enc: Encoding)
    requires TakesPairs(enc)
    ensures ContentTok(enc, FALSE_SPACE_TAG) == Tok(StartTagWithAtts, 10)
  {
    hide Step; hide Scan; hide FALSE_SPACE_TAG; hide TakesPairs;
    NameSteps(enc);
    AttSteps(enc);
    PairStep(enc);
    var w := FALSE_SPACE_TAG;
    ScanUnfold(enc, AttValueEnd, w, 9);
    ScanUnfold(enc, AttValue(APOS), w, 8);
    ScanUnfold(enc, AttValue(APOS), w, 6);
    ScanUnfold(enc, AttEq, w, 5);
    ScanUnfold(enc, AttName, w, 4);
    ScanUnfold(enc, TagSpace, w, 3);
    ScanUnfold(enc, TagName, w, 2);
    ScanUnfold(enc, LtOpen, w, 1);
    assert enc.byteType(w[0]) == LT by {
      PairsUtf8(enc);
      TagBytes();
      TagTypes(enc);
    }
  }

  lemma {:induction false} TagPassed(enc: Encoding)
    requires TakesPairs(enc)
    ensures |FALSE_SPACE_TAG| == 10 && Passed(enc, LtOpen, FALSE_SPACE_TAG, 1, 0, 0) == [Attribute(3, 6, 8, true)]
  {
    hide Step; hide Passed; hide FALSE_SPACE_TAG; hide TakesPairs;
    NameSteps(enc);
    AttSteps(enc);
    PairStep(enc);
    var w := FALSE_SPACE_TAG;
    PassedEnd(enc, w);
    PassedStep(enc, AttValue(APOS), w, 8, 3, 6);
    PassedStep(enc, AttValue(APOS), w, 6, 3, 6);
    PassedStep(enc, AttEq, w, 5, 3, 0);
    PassedStep(enc, AttName, w, 4, 3, 0);
    PassedStep(enc, TagSpace, w, 3, 0, 0);
    PassedStep(enc, TagName, w, 2, 0, 0);
    PassedStep(enc, LtOpen, w, 1, 0, 0);
  }

  lemma {:induction false} PassedEnd(enc: Encoding, w: string)
    requires |w| == 10 && Step(enc, AttValueEnd, w[9..]).Accept?
    ensures Passed(enc, AttValueEnd, w, 9, 3, 6) == []
  {
    hide Step;
  }

  /** The exception occurs: the tokenizer takes the whole tag, getAtts marks the value as normalized, and yet the slow path
      would store it without the space if the type of the attribute is not CDATA. */
  lemma {:induction false} FalseSpaceStored(internal: Encoding, dtd: Dtd, open: set<string>, enc: Encoding)
    requires TakesPairs(enc)
    ensures ContentTok(enc, FALSE_SPACE_TAG) == Tok(StartTagWithAtts, |FALSE_SPACE_TAG|)
    ensures GetAtts(enc, FALSE_SPACE_TAG, 1, GETTER_START) == Atts([Attribute(3, 6, 8, true)])
    ensures Slice(FALSE_SPACE_TAG, 6, 8) == FALSE_SPACE
    ensures StoreValue(internal, dtd, open, enc, true, FALSE_SPACE) == Value(FALSE_SPACE) != StoreValue(internal, dtd, open, enc, false, FALSE_SPACE)
  {
    hide Step; hide GetAtts; hide Passed; hide StoreValue; hide ContentTok; hide FALSE_SPACE_TAG;
    TagBytes();
    TagTypes(enc);
    TagTok(enc);
    TagPassed(enc);
    var w := FALSE_SPACE_TAG;
    assert w[..10] == w;
    TagAttributes(enc, w);
    var list := GetAtts(enc, w, 1, GETTER_START).list;
    assert MarkedPlain(enc, w, list[0]);
    assert Plain(enc, w, 6, 6, 8);
    assert list == [Attribute(3, 6, 8, true)];
    PlainMoved(enc, w, 6, 6, 8, FALSE_SPACE, 0, 6);
    PlainStored(internal, dtd, open, enc, FALSE_SPACE);
  }
}
