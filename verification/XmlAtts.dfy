/**
 Attributes: the second, end-pointer-less scan of a start tag (getAtts in
 libjabber/xmltok_impl_c.h) and the values it leads to (storeAtts,
 storeAttributeValue and appendAttributeValue in libjabber/xmlparse.c).
 */
module XmlAtts {
  import opened XmlScan
  import opened XmlTok

  // ---- getAtts ----

  /** One ATTRIBUTE record: positions in the tag, and whether the value needs no normalization. */
  datatype Attribute = Attribute(name: nat, valuePtr: nat, valueEnd: nat, normalized: bool)

  /** The loop variables of getAtts; `cur` is the record being filled in. */
  datatype Getter = Getter(inName: bool, inValue: bool, open: ByteType, cur: Attribute)

  const GETTER_START := Getter(true, false, NONXML, Attribute(0, 0, 0, false))

  /** `Overrun` stands for reading past the bytes of the tag. */
  datatype AttsResult = Overrun | Atts(list: seq<Attribute>)

  function StartName(g: Getter, p: nat): Getter
  {
    if g.inName || g.inValue then g
    else g.(inName := true, cur := g.cur.(name := p, normalized := true))
  }

  /** Whether a white-space byte inside a value spoils its `normalized` mark. */
  predicate Spoils(enc: Encoding, s: string, p: nat, g: Getter)
    requires p + 1 < |s|
  {
    p == g.cur.valuePtr || s[p] != ' ' || s[p + 1] == ' ' || enc.byteType(s[p + 1]) == g.open
  }

  /** One turn of the getAtts loop: return, read past the end, or go on `n` bytes further with the completed record, if any. */
  datatype GetStep = Return | ReadPast | Move(n: nat, g: Getter, done: seq<Attribute>)

  function GetterStep(enc: Encoding, s: string, p: nat, g: Getter): (r: GetStep)
    requires p < |s|
    ensures r.Move? ==> 1 <= r.n
    ensures r.Return? ==> !g.inValue
    ensures r.Move? && r.done != [] ==> g.inValue && !r.g.inValue
  {
    var t := enc.byteType(s[p]);
    var unnormalized := g.(cur := g.cur.(normalized := false));
    match t
    case LEAD2 | LEAD3 | LEAD4 => Move(LeadLength(t), StartName(g, p), [])
    case NONASCII | NMSTRT | HEX => Move(1, StartName(g, p), [])
    case QUOT | APOS =>
      if !g.inValue then Move(1, Getter(false, true, t, g.cur.(valuePtr := p + 1)), [])
      else if g.open == t then Move(1, g.(inValue := false), [g.cur.(valueEnd := p)])
      else Move(1, g, [])
    case AMP => Move(1, unnormalized, [])
    case S =>
      if g.inName then Move(1, g.(inName := false), [])
      else if g.inValue && g.cur.normalized then
        if p + 1 == |s| then ReadPast else Move(1, if Spoils(enc, s, p, g) then unnormalized else g, [])
      else Move(1, g, [])
    case CR | LF =>
      if g.inName then Move(1, g.(inName := false), []) else Move(1, if g.inValue then unnormalized else g, [])
    case GT | SOL => if g.inValue then Move(1, g, []) else Return
    case _ => Move(1, g, [])
  }

  function After(done: seq<Attribute>, r: AttsResult): AttsResult
  {
    match r case Overrun => Overrun case Atts(l) => Atts(done + l)
  }

  /** The records completed from position `p` on. */
  function GetAtts(enc: Encoding, s: string, p: nat, g: Getter): (r: AttsResult)
    decreases |s| - p
  {
    if p >= |s| then Overrun
    else
      match GetterStep(enc, s, p, g)
      case Return => Atts([])
      case ReadPast => Overrun
      case Move(n, g', done) => After(done, GetAtts(enc, s, p + n, g'))
  }

  // ---- What the tokenizer itself saw ----

  /** The name and value positions the scanner automaton passes from `q` at `p` on. */
  function Passed(enc: Encoding, q: State, s: string, p: nat, name: nat, valuePtr: nat): (l: seq<Attribute>)
    requires p <= |s|
    decreases |s| - p
  {
    if p == |s| then []
    else
      match Step(enc, q, s[p..])
      case Go(n, q') =>
        var name', valuePtr' := NameAfter(q, q', p, name), ValueAfter(q, q', p + n, valuePtr);
        (if q'.AttValueEnd? then [Attribute(name, valuePtr, p, true)] else []) + Passed(enc, q', s, p + n, name', valuePtr')
      case _ => []
  }

  /** Names and positions agree; the `normalized` marks are dealt with separately. */
  predicate SamePositions(a: seq<Attribute>, b: seq<Attribute>)
  {
    |a| == |b| && forall i :: 0 <= i < |a| ==> a[i].name == b[i].name && a[i].valuePtr == b[i].valuePtr && a[i].valueEnd == b[i].valueEnd
  }

  predicate InQuotes(g: Getter, open: ByteType, name: nat, valuePtr: nat)
  {
    && !g.inName && g.inValue && g.open == open && (open == QUOT || open == APOS)
    && g.cur.name == name && g.cur.valuePtr == valuePtr
  }

  predicate BeforeValue(g: Getter, name: nat) { !g.inValue && g.cur.name == name && g.cur.normalized }

  /** The automaton in `q` and the getAtts loop agree on where they are. */
  predicate Agree(q: State, g: Getter, name: nat, valuePtr: nat)
  {
    match q
    case TagName => g.inName && !g.inValue
    case TagSpace | AttSpace | AttValueEnd => !g.inName && !g.inValue
    case AttName => g.inName && BeforeValue(g, name)
    case AttNameSpace => !g.inName && BeforeValue(g, name)
    case AttEq => BeforeValue(g, name)
    case AttValue(open) => InQuotes(g, open, name, valuePtr)
    case RefOpen(ctx) => ctx.InValue? && !g.cur.normalized && InQuotes(g, ctx.open, name, valuePtr)
    case RefName(ctx) => ctx.InValue? && !g.cur.normalized && InQuotes(g, ctx.open, name, valuePtr)
    case CharRefOpen(ctx) => ctx.InValue? && !g.cur.normalized && InQuotes(g, ctx.open, name, valuePtr)
    case CharRefDec(ctx) => ctx.InValue? && !g.cur.normalized && InQuotes(g, ctx.open, name, valuePtr)
    case HexRefOpen(ctx) => ctx.InValue? && !g.cur.normalized && InQuotes(g, ctx.open, name, valuePtr)
    case HexRefDigits(ctx) => ctx.InValue? && !g.cur.normalized && InQuotes(g, ctx.open, name, valuePtr)
    case _ => false
  }

  /** A value the fast path takes as it is: no reference, no line break, and only single inner spaces. */
  predicate Plain(enc: Encoding, s: string, from: nat, p: nat, end: nat)
    requires p <= end <= |s|
    decreases end - p
  {
    p == end ||
    var t := enc.byteType(s[p]);
    match t
    case LEAD2 | LEAD3 | LEAD4 => p + LeadLength(t) <= end && Plain(enc, s, from, p + LeadLength(t), end)
    case AMP | CR | LF | LT => false
    case S => s[p] == ' ' && p != from && p + 1 < end && s[p + 1] != ' ' && Plain(enc, s, from, p + 1, end)
    case _ => Plain(enc, s, from, p + 1, end)
  }

  /** `name` and `valuePtr` after the automaton moved from `q` at `p` to `q'` at `p'`. */
  function NameAfter(q: State, q': State, p: nat, name: nat): nat { if q'.AttName? && !q.AttName? then p else name }

  function ValueAfter(q: State, q': State, p': nat, valuePtr: nat): nat { if q.AttEq? && q'.AttValue? then p' else valuePtr }

  /** One move of the automaton is one turn of the loop, outside and inside references. */
  predicate StepsAgree(enc: Encoding, q: State, s: string, p: nat, g: Getter, name: nat, valuePtr: nat)
    requires p < |s|
  {
    var a := Step(enc, q, s[p..]);
    var r := GetterStep(enc, s, p, g);
    && a.Go? && r.Move? && r.n == a.n && Agree(a.q, r.g, NameAfter(q, a.q, p, name), ValueAfter(q, a.q, p + a.n, valuePtr))
    && r.done == (if a.q.AttValueEnd? then [g.cur.(valueEnd := p)] else [])
  }

  predicate TagPart(q: State) { q.TagName? || q.TagSpace? || q.AttSpace? || q.AttValueEnd? || q.AttName? || q.AttNameSpace? || q.AttEq? || q.AttValue? }

  lemma {:induction false} StepsAgreeInName(enc: Encoding, q: State, s: string, p: nat, g: Getter, name: nat, valuePtr: nat)
    requires p < |s| && (q.TagName? || q.TagSpace?) && Agree(q, g, name, valuePtr)
    requires var a := Step(enc, q, s[p..]); a.Go? && p + a.n < |s| && !a.q.TagSlash?
    ensures StepsAgree(enc, q, s, p, g, name, valuePtr)
  {
    hide Step;
    StepBy(enc, q, s[p..]);
    assert s[p..][0] == s[p];
  }

  lemma {:induction false} StepsAgreeInAtt(enc: Encoding, q: State, s: string, p: nat, g: Getter, name: nat, valuePtr: nat)
    requires p < |s| && AttPart(q) && !q.AttValue? && Agree(q, g, name, valuePtr)
    requires var a := Step(enc, q, s[p..]); a.Go? && p + a.n < |s| && !a.q.TagSlash?
    ensures StepsAgree(enc, q, s, p, g, name, valuePtr)
  {
    hide Step;
    StepBy(enc, q, s[p..]);
    assert s[p..][0] == s[p];
  }

  lemma {:induction false} StepsAgreeInValue(enc: Encoding, q: State, s: string, p: nat, g: Getter, name: nat, valuePtr: nat)
    requires p < |s| && q.AttValue? && Agree(q, g, name, valuePtr)
    requires var a := Step(enc, q, s[p..]); a.Go? && p + a.n < |s|
    ensures StepsAgree(enc, q, s, p, g, name, valuePtr)
  {
    hide Step;
    StepBy(enc, q, s[p..]);
    assert s[p..][0] == s[p];
  }

  lemma {:induction false} StepsAgreeInTag(enc: Encoding, q: State, s: string, p: nat, g: Getter, name: nat, valuePtr: nat)
    requires p < |s| && TagPart(q) && Agree(q, g, name, valuePtr)
    requires var a := Step(enc, q, s[p..]); a.Go? && p + a.n < |s| && !a.q.TagSlash?
    ensures StepsAgree(enc, q, s, p, g, name, valuePtr)
  {
    hide Step; hide StepsAgree; hide Agree;
    if q.AttValue? { StepsAgreeInValue(enc, q, s, p, g, name, valuePtr); }
    else if AttPart(q) { StepsAgreeInAtt(enc, q, s, p, g, name, valuePtr); }
    else { StepsAgreeInName(enc, q, s, p, g, name, valuePtr); }
  }

  lemma {:induction false} StepsAgreeInRef(enc: Encoding, q: State, s: string, p: nat, g: Getter, name: nat, valuePtr: nat)
    requires p < |s| && !TagPart(q) && Agree(q, g, name, valuePtr) && enc.byteType('x') == NMSTRT
    requires var a := Step(enc, q, s[p..]); a.Go? && p + a.n < |s|
    ensures StepsAgree(enc, q, s, p, g, name, valuePtr)
  {
    hide Step;
    StepBy(enc, q, s[p..]);
    assert s[p..][0] == s[p];
  }

  lemma {:induction false} TagEndStates(enc: Encoding, q: State, w: string, g: Getter, name: nat, valuePtr: nat)
    requires w != "" && Agree(q, g, name, valuePtr)
    requires var a := Step(enc, q, w); a.Accept? || (a.Go? && a.q.TagSlash?)
    ensures !g.inValue && (enc.byteType(w[0]) == GT || enc.byteType(w[0]) == SOL)
  {
    hide Step; hide StepRef; hide StepTag; hide StepAtt;
    StepBy(enc, q, w);
    if RefPart(q) { RefStaysIn(enc, q, w); } else if NamePart(q) { NameEnds(enc, q, w); } else { AttEnds(enc, q, w); }
  }

  lemma {:induction false} RefStaysIn(enc: Encoding, q: State, w: string)
    requires w != "" && RefPart(q) && q.ctx.InValue?
    ensures var a := StepRef(enc, q, w); !a.Accept? && (a.Go? ==> !a.q.TagSlash?)
  {
    hide NameCase; hide NmstrtCase;
  }

  lemma {:induction false} NameEnds(enc: Encoding, q: State, w: string)
    requires w != "" && (q.TagName? || q.TagSpace?)
    ensures var a := StepTag(enc, q, w); a.Accept? || (a.Go? && a.q.TagSlash?) ==> enc.byteType(w[0]) == GT || enc.byteType(w[0]) == SOL
  {
    hide NameCase; hide NmstrtCase;
  }

  lemma {:induction false} AttEnds(enc: Encoding, q: State, w: string)
    requires w != "" && AttPart(q)
    ensures var a := StepAtt(enc, q, w);
            a.Accept? || (a.Go? && a.q.TagSlash?) ==> !q.AttValue? && !q.AttEq? && (enc.byteType(w[0]) == GT || enc.byteType(w[0]) == SOL)
  {
    hide NameCase; hide NmstrtCase; hide InvalidCase;
  }

  /** Where the automaton ends a start tag, or is about to, the loop returns. */
  lemma {:induction false} TagEndAgrees(enc: Encoding, q: State, s: string, p: nat, g: Getter, name: nat, valuePtr: nat)
    requires p < |s| && Agree(q, g, name, valuePtr)
    requires var a := Step(enc, q, s[p..]); a.Accept? || (a.Go? && a.q.TagSlash?)
    ensures GetterStep(enc, s, p, g) == Return
  {
    hide Step; hide Agree;
    TagEndStates(enc, q, s[p..], g, name, valuePtr);
    assert s[p..][0] == s[p];
  }

  lemma {:induction false} SlashPassesNothing(enc: Encoding, b: bool, s: string, p: nat, name: nat, valuePtr: nat)
    requires p <= |s|
    ensures Passed(enc, TagSlash(b), s, p, name, valuePtr) == []
  {
  }

  /** How one turn inside a value treats the mark, in terms of `Plain`. */
  lemma {:induction false} PlainStep(enc: Encoding, q: State, s: string, p: nat, g: Getter, name: nat, valuePtr: nat, end: nat)
    requires p < end < |s| && q.AttValue? && Agree(q, g, name, valuePtr) && enc.byteType(s[end]) == q.open
    requires StepsAgree(enc, q, s, p, g, name, valuePtr)
    requires var a := Step(enc, q, s[p..]); !a.q.AttValueEnd? && p + a.n <= end
    requires enc.byteType(s[p]) == S && enc.byteType(s[p + 1]) == q.open ==> p + 1 == end
    ensures var a := Step(enc, q, s[p..]); var r := GetterStep(enc, s, p, g);
            (r.g.cur.normalized && Plain(enc, s, valuePtr, p + a.n, end))
            <==> (g.cur.normalized && Plain(enc, s, valuePtr, p, end))
  {
    hide Step;
    StepBy(enc, q, s[p..]);
    assert s[p..][0] == s[p];
  }

  /** The mark of a completed record says that its value is plain. */
  predicate MarkedPlain(enc: Encoding, s: string, a: Attribute)
  {
    a.valuePtr <= a.valueEnd <= |s| && (a.normalized <==> Plain(enc, s, a.valuePtr, a.valuePtr, a.valueEnd))
  }

  /** The record of the value being scanned at `p`: it ends at the next closing quote, and its mark is kept while all is plain. */
  predicate Completes(enc: Encoding, q: State, s: string, p: nat, g: Getter, a: Attribute)
    requires p < |s|
  {
    && g.cur.valuePtr == a.valuePtr && p <= a.valueEnd < |s| && enc.byteType(s[a.valueEnd]) == g.open
    && (q.AttValue? && enc.byteType(s[p]) == g.open ==> a.valueEnd == p)
    && (a.normalized <==> g.cur.normalized && Plain(enc, s, a.valuePtr, p, a.valueEnd))
  }

  predicate GetsWhatPassed(enc: Encoding, q: State, s: string, p: nat, g: Getter, name: nat, valuePtr: nat)
    requires p <= |s|
  {
    var r := GetAtts(enc, s, p, g);
    && p < |s| && r.Atts? && SamePositions(r.list, Passed(enc, q, s, p, name, valuePtr))
    && (g.inValue ==> r.list != [] && Completes(enc, q, s, p, g, r.list[0]))
    && (forall i :: (if g.inValue then 1 else 0) <= i < |r.list| ==> MarkedPlain(enc, s, r.list[i]))
  }

  lemma {:induction false} CompletesStep(enc: Encoding, q: State, s: string, p: nat, g: Getter, name: nat, valuePtr: nat, c: Attribute)
    requires p < |s| && Agree(q, g, name, valuePtr) && g.inValue && StepsAgree(enc, q, s, p, g, name, valuePtr)
    requires var a := Step(enc, q, s[p..]); var g' := GetterStep(enc, s, p, g).g;
             p + a.n < |s| && g'.inValue && Completes(enc, a.q, s, p + a.n, g', c)
    ensures Completes(enc, q, s, p, g, c)
  {
    if q.AttValue? {
      PlainStep(enc, q, s, p, g, name, valuePtr, c.valueEnd);
    }
  }

  lemma {:induction false} PassedStep(enc: Encoding, q: State, s: string, p: nat, name: nat, valuePtr: nat)
    requires p < |s| && Step(enc, q, s[p..]).Go?
    ensures var a := Step(enc, q, s[p..]);
            Passed(enc, q, s, p, name, valuePtr) ==
            (if a.q.AttValueEnd? then [Attribute(name, valuePtr, p, true)] else [])
            + Passed(enc, a.q, s, p + a.n, NameAfter(q, a.q, p, name), ValueAfter(q, a.q, p + a.n, valuePtr))
  {
    hide Step;
  }

  lemma {:induction false} ClosesStep(enc: Encoding, q: State, s: string, p: nat, g: Getter, name: nat, valuePtr: nat)
    requires p < |s| && Agree(q, g, name, valuePtr) && StepsAgree(enc, q, s, p, g, name, valuePtr)
    requires g.inValue && !GetterStep(enc, s, p, g).g.inValue
    ensures var a := Step(enc, q, s[p..]); var r := GetterStep(enc, s, p, g);
            && a.q.AttValueEnd? && r.done == [g.cur.(valueEnd := p)] && g.cur.name == name && g.cur.valuePtr == valuePtr
            && Completes(enc, q, s, p, g, r.done[0])
  {
    hide Step;
  }

  lemma {:induction false} OpensStep(enc: Encoding, q: State, s: string, p: nat, g: Getter, name: nat, valuePtr: nat, c: Attribute)
    requires p < |s| && Agree(q, g, name, valuePtr) && StepsAgree(enc, q, s, p, g, name, valuePtr)
    requires !g.inValue && GetterStep(enc, s, p, g).g.inValue
    requires var a := Step(enc, q, s[p..]); p + a.n < |s| && Completes(enc, a.q, s, p + a.n, GetterStep(enc, s, p, g).g, c)
    ensures MarkedPlain(enc, s, c)
  {
    hide Step;
    StepBy(enc, q, s[p..]);
    assert q.AttEq?;
  }

  lemma {:induction false} GetsStep(enc: Encoding, q: State, s: string, p: nat, g: Getter, name: nat, valuePtr: nat)
    requires p < |s| && Agree(q, g, name, valuePtr) && StepsAgree(enc, q, s, p, g, name, valuePtr)
    requires var a := Step(enc, q, s[p..]); var r := GetterStep(enc, s, p, g);
             && p + a.n < |s|
             && GetsWhatPassed(enc, a.q, s, p + a.n, r.g, NameAfter(q, a.q, p, name), ValueAfter(q, a.q, p + a.n, valuePtr))
    ensures GetsWhatPassed(enc, q, s, p, g, name, valuePtr)
  {
    hide Step; hide GetterStep; hide Plain; hide Completes; hide Passed;
    var a := Step(enc, q, s[p..]);
    var r := GetterStep(enc, s, p, g);
    var l := GetAtts(enc, s, p + a.n, r.g).list;
    PassedStep(enc, q, s, p, name, valuePtr);
    if g.inValue && r.g.inValue {
      CompletesStep(enc, q, s, p, g, name, valuePtr, l[0]);
    } else if g.inValue {
      ClosesStep(enc, q, s, p, g, name, valuePtr);
    } else if r.g.inValue {
      OpensStep(enc, q, s, p, g, name, valuePtr, l[0]);
    }
  }

  /** The next turn starts in agreement. */
  lemma {:induction false} AgreeAfter(enc: Encoding, q: State, s: string, p: nat, g: Getter, name: nat, valuePtr: nat)
    requires p < |s| && Agree(q, g, name, valuePtr) && enc.byteType('x') == NMSTRT
    requires var a := Step(enc, q, s[p..]); a.Go? && p + a.n < |s| && !a.q.TagSlash?
    ensures StepsAgree(enc, q, s, p, g, name, valuePtr)
    ensures var a := Step(enc, q, s[p..]); var r := GetterStep(enc, s, p, g);
            r.Move? && Agree(a.q, r.g, NameAfter(q, a.q, p, name), ValueAfter(q, a.q, p + a.n, valuePtr))
  {
    hide Step; hide GetterStep; hide Agree;
    if TagPart(q) { StepsAgreeInTag(enc, q, s, p, g, name, valuePtr); } else { StepsAgreeInRef(enc, q, s, p, g, name, valuePtr); }
  }

  lemma {:induction false} ScanGoesOn(enc: Encoding, q: State, s: string, p: nat)
    requires p <= |s| && Scan(enc, q, s, p).Tok?
    ensures p < |s|
    ensures var a := Step(enc, q, s[p..]);
            a.Accept? || (a.Go? && p + a.n < |s| && Scan(enc, a.q, s, p + a.n) == Scan(enc, q, s, p))
  {
    hide Step; hide Scan;
    ScanUnfold(enc, q, s, p);
    var a := Step(enc, q, s[p..]);
    if a.Go? { ScanUnfold(enc, a.q, s, p + a.n); }
  }

  /** On every start tag the tokenizer accepts, the loop without an end pointer stays inside the tag and finds the
      very names and values the tokenizer passed; a value is marked normalized exactly when it is plain. */
  lemma {:induction false} GetAttsAgrees(enc: Encoding, q: State, s: string, p: nat, g: Getter, name: nat, valuePtr: nat)
    requires p <= |s| && Agree(q, g, name, valuePtr) && enc.byteType('x') == NMSTRT
    requires Scan(enc, q, s, p).Tok?
    ensures GetsWhatPassed(enc, q, s, p, g, name, valuePtr)
    decreases |s| - p
  {
    hide Step; hide GetterStep; hide Scan; hide Agree; hide GetsWhatPassed; hide StepsAgree; hide NameAfter; hide ValueAfter;
    ScanGoesOn(enc, q, s, p);
    var a := Step(enc, q, s[p..]);
    if a.Accept? || a.q.TagSlash? {
      GetsAtTagEnd(enc, q, s, p, g, name, valuePtr);
    } else {
      AgreeAfter(enc, q, s, p, g, name, valuePtr);
      GetAttsAgrees(enc, a.q, s, p + a.n, GetterStep(enc, s, p, g).g, NameAfter(q, a.q, p, name), ValueAfter(q, a.q, p + a.n, valuePtr));
      GetsStep(enc, q, s, p, g, name, valuePtr);
    }
  }

  lemma {:induction false} GetsAtTagEnd(enc: Encoding, q: State, s: string, p: nat, g: Getter, name: nat, valuePtr: nat)
    requires p < |s| && Agree(q, g, name, valuePtr)
    requires var a := Step(enc, q, s[p..]); a.Accept? || (a.Go? && a.q.TagSlash?)
    ensures GetsWhatPassed(enc, q, s, p, g, name, valuePtr)
  {
    hide Step; hide Agree; hide GetterStep;
    TagEndAgrees(enc, q, s, p, g, name, valuePtr);
    var a := Step(enc, q, s[p..]);
    if a.Go? { SlashPassesNothing(enc, a.q.withAtts, s, p + a.n, name, valuePtr); }
    assert g.inValue == false;
  }

  // ---- From "<" on ----

  predicate StartTag(tok: Token)
  {
    tok == StartTagWithAtts || tok == StartTagNoAtts || tok == EmptyElementWithAtts || tok == EmptyElementNoAtts
  }

  /** States of a start tag; the automaton does not leave them. */
  predicate TagState(q: State)
  {
    || TagPart(q) || q.TagSlash?
    || ((q.RefOpen? || q.RefName? || q.CharRefOpen? || q.CharRefDec? || q.HexRefOpen? || q.HexRefDigits?) && q.ctx.InValue?)
  }

  /** The states "<" can lead to that are not those of a start tag. */
  predicate NoTagState(q: State)
  {
    || q.LtExcl? || q.CommentOpen? || q.CommentBody? || q.CommentMinus? || q.CommentMinusMinus? || q.CdataOpen?
    || q.EndTagOpen? || q.EndTagName? || q.EndTagSpace? || q.PiOpen?
    || (q.PiTarget? || ((q.PiTargetQuest? || q.PiBody? || q.PiBodyQuest?) && !StartTag(q.piTok)))
  }

  lemma {:induction false} NoTagStepOther(enc: Encoding, q: State, w: string)
    requires w != "" && NoTagState(q) && OtherPart(q)
    ensures var a := StepOther(enc, q, w); (a.Go? ==> NoTagState(a.q)) && (a.Accept? ==> !StartTag(a.tok))
  {
    hide NameCase; hide NmstrtCase; hide InvalidCase;
  }

  lemma {:induction false} NoTagStep(enc: Encoding, q: State, w: string)
    requires w != "" && NoTagState(q)
    ensures var a := Step(enc, q, w); (a.Go? ==> NoTagState(a.q)) && (a.Accept? ==> !StartTag(a.tok))
  {
    hide Step; hide StepOther; hide StepTag; hide NoTagState;
    StepBy(enc, q, w);
    NoTagParts(q);
    if OtherPart(q) { NoTagStepOther(enc, q, w); } else { NoTagStepName(enc, q, w); }
  }

  lemma {:induction false} NoTagParts(q: State)
    requires NoTagState(q)
    ensures OtherPart(q) || NamePart(q)
  {
  }

  lemma {:induction false} NoTagStepName(enc: Encoding, q: State, w: string)
    requires w != "" && NoTagState(q) && NamePart(q)
    ensures var a := StepTag(enc, q, w); (a.Go? ==> NoTagState(a.q)) && (a.Accept? ==> !StartTag(a.tok))
  {
    hide NameCase; hide NmstrtCase;
  }

  lemma {:induction false} NoTagScan(enc: Encoding, q: State, s: string, p: nat)
    requires p <= |s| && NoTagState(q)
    ensures var v := Scan(enc, q, s, p); v.Tok? ==> !StartTag(v.tok)
    decreases |s| - p
  {
    hide Step; hide Scan; hide NoTagState;
    ScanUnfold(enc, q, s, p);
    if p < |s| {
      NoTagStep(enc, q, s[p..]);
      var a := Step(enc, q, s[p..]);
      if a.Go? { NoTagScan(enc, a.q, s, p + a.n); }
    }
  }

  lemma {:induction false} CharCasesCut(enc: Encoding, w: string, t: string)
    requires w != ""
    ensures NameCase(enc, w + t).Take? && NameCase(enc, w + t).n <= |w| ==> NameCase(enc, w) == NameCase(enc, w + t)
    ensures NmstrtCase(enc, w + t).Take? && NmstrtCase(enc, w + t).n <= |w| ==> NmstrtCase(enc, w) == NmstrtCase(enc, w + t)
    ensures InvalidCase(enc, w + t).Take? && InvalidCase(enc, w + t).n <= |w| ==> InvalidCase(enc, w) == InvalidCase(enc, w + t)
    ensures NameCase(enc, w).NotListed? <==> NameCase(enc, w + t).NotListed?
    ensures NmstrtCase(enc, w).NotListed? <==> NmstrtCase(enc, w + t).NotListed?
    ensures InvalidCase(enc, w).NotListed? <==> InvalidCase(enc, w + t).NotListed?
  {
    assert (w + t)[0] == w[0];
    var n := LeadLength(enc.byteType(w[0]));
    if n != 0 && n <= |w| {
      assert (w + t)[..n] == w[..n];
    }
  }

  /** In a start tag the automaton does not look behind the bytes it takes. */
  predicate CutsAlike(enc: Encoding, q: State, w: string, t: string)
    requires w != ""
  {
    var a := Step(enc, q, w + t);
    (a.Go? || a.Accept?) && a.n <= |w| ==>
      && Step(enc, q, w) == a
      && (a.Go? ==> TagState(a.q) || NoTagState(a.q)) && (a.Accept? ==> a.n == 1)
  }

  lemma {:induction false} TagPartCut(enc: Encoding, q: State, w: string, t: string)
    requires w != "" && TagPart(q)
    ensures CutsAlike(enc, q, w, t)
  {
    hide Step; hide NameCase; hide NmstrtCase; hide InvalidCase;
    StepBy(enc, q, w);
    StepBy(enc, q, w + t);
    assert (w + t)[0] == w[0];
    CharCasesCut(enc, w, t);
  }

  lemma {:induction false} OtherTagCut(enc: Encoding, q: State, w: string, t: string)
    requires w != "" && !TagPart(q) && (TagState(q) || q.LtOpen?)
    ensures CutsAlike(enc, q, w, t)
  {
    hide Step; hide NameCase; hide NmstrtCase; hide InvalidCase;
    StepBy(enc, q, w);
    StepBy(enc, q, w + t);
    assert (w + t)[0] == w[0];
    CharCasesCut(enc, w, t);
  }

  lemma {:induction false} TagStepCut(enc: Encoding, q: State, w: string, s: string, p: nat)
    requires s <= w && p <= |s| && p < |w| && (TagState(q) || q.LtOpen?)
    requires var a := Step(enc, q, w[p..]); (a.Go? || a.Accept?) && p + a.n <= |s|
    ensures p < |s| && Step(enc, q, s[p..]) == Step(enc, q, w[p..])
    ensures var a := Step(enc, q, s[p..]); a.Go? ==> TagState(a.q) || NoTagState(a.q)
  {
    hide Step; hide TagState; hide TagPart; hide NoTagState;
    if p == |s| {
      var one, rest := w[p..][..1], w[p..][1..];
      assert w[p..] == one + rest;
      if TagPart(q) { TagPartCut(enc, q, one, rest); } else { OtherTagCut(enc, q, one, rest); }
    } else {
      var t := w[|s|..];
      assert w[p..] == s[p..] + t;
      if TagPart(q) { TagPartCut(enc, q, s[p..], t); } else { OtherTagCut(enc, q, s[p..], t); }
    }
  }

  lemma {:induction false} TagScanCut(enc: Encoding, q: State, w: string, s: string, p: nat)
    requires s <= w && p <= |s| && (TagState(q) || q.LtOpen?)
    requires var v := Scan(enc, q, w, p); v.Tok? && StartTag(v.tok) && v.next == |s|
    ensures p < |s| && Scan(enc, q, s, p) == Scan(enc, q, w, p)
    decreases |s| - p
  {
    hide Step; hide TagState; hide NoTagState; hide Scan;
    ScanUnfold(enc, q, w, p);
    var a := Step(enc, q, w[p..]);
    TagStepCut(enc, q, w, s, p);
    ScanUnfold(enc, q, s, p);
    if a.Go? {
      if NoTagState(a.q) { NoTagScan(enc, a.q, w, p + a.n); }
      TagScanCut(enc, a.q, w, s, p + a.n);
    }
  }

  /** The attribute list of a whole start tag, "<" to ">". */
  lemma {:induction false} TagAttributes(enc: Encoding, w: string)
    requires w != "" && enc.byteType(w[0]) == LT && enc.byteType('x') == NMSTRT
    requires var v := ContentTok(enc, w); v.Tok? && StartTag(v.tok)
    ensures var tag := w[..ContentTok(enc, w).next]; var r := GetAtts(enc, tag, 1, GETTER_START);
            && r.Atts? && SamePositions(r.list, Passed(enc, LtOpen, tag, 1, 0, 0))
            && forall i :: 0 <= i < |r.list| ==> MarkedPlain(enc, tag, r.list[i])
  {
    hide Step;
    var next := ContentTok(enc, w).next;
    var tag := w[..next];
    TagScanCut(enc, LtOpen, w, tag, 1);
    var a := Step(enc, LtOpen, tag[1..]);
    assert a.Go? && (a.q == TagName || NoTagState(a.q)) && (a.q == TagName ==> GetterStep(enc, tag, 1, GETTER_START) == Move(a.n, GETTER_START, [])) by {
      FirstStep(enc, tag);
    }
    if NoTagState(a.q) { NoTagScan(enc, a.q, tag, 1 + a.n); }
    GetAttsAgrees(enc, TagName, tag, 1 + a.n, GETTER_START, 0, 0);
    assert GetAtts(enc, tag, 1, GETTER_START) == After([], GetAtts(enc, tag, 1 + a.n, GETTER_START));
  }

  lemma {:induction false} FirstStep(enc: Encoding, tag: string)
    requires |tag| > 1
    ensures var a := Step(enc, LtOpen, tag[1..]);
            && !a.Accept?
            && (a.Go? ==> a.q == TagName || NoTagState(a.q))
            && (a.Go? && a.q == TagName ==> GetterStep(enc, tag, 1, GETTER_START) == Move(a.n, GETTER_START, []))
  {
    hide Step;
    StepBy(enc, LtOpen, tag[1..]);
    assert tag[1..][0] == tag[1];
  }
}
