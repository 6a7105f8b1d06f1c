/**
 What the type of an attribute makes of its value (section 3.3.3 of XML 1.0):
 for every type but CDATA, appendAttributeValue and storeAttributeValue of
 libjabber/xmlparse.c store the words of what they store for CDATA, with one
 space between them, whatever references there are in the value.
 */
module XmlWords {
  import opened XmlScan
  import opened XmlTok
  import opened XmlValue
  import opened XmlPool
  import opened XmlPrinted
  import opened XmlNormal

  // ---- What the pool holds ----

  function Behind(pool: string, r: ValueResult): ValueResult
  {
    match r case ValueError(_) => r case Value(text) => Value(pool + text)
  }

  function Squeezing(pool: string, r: ValueResult): ValueResult
  {
    match r case ValueError(_) => r case Value(text) => Value(Squeeze(pool, text))
  }

  lemma {:induction false} BehindBehind(a: string, b: string, r: ValueResult)
    ensures Behind(a, Behind(b, r)) == Behind(a + b, r) && Behind("", r) == r
  {
    if r.Value? { assert a + (b + r.text) == a + b + r.text && "" + r.text == r.text; }
  }

  lemma {:induction false} SqueezingBehind(pool: string, a: string, r: ValueResult)
    ensures Squeezing(Squeeze(pool, a), r) == Squeezing(pool, Behind(a, r))
  {
    if r.Value? { SqueezeConcat(pool, a, r.text); }
  }

  // ---- One turn of appendAttributeValue ----

  /** What one token adds to a CDATA value. */
  datatype Part = Add(text: string) | Refer(name: string) | End(r: ValueResult)

  function PartOf(enc: Encoding, w: string): Part
  {
    match AttributeValueTok(enc, w)
    case NoBytes => End(Value(""))
    case TrailingCr => Add(" ")
    case Tok(tok, n) =>
      if tok == DataChars then Add(w[..n])
      else if tok == AttributeValueS || tok == DataNewline then Add(" ")
      else if tok == CharRef then (if CharRefNumber(w[..n]) < 0 || Utf8Encode(CharRefNumber(w[..n])) == "" then End(ValueError(BadCharRef)) else Add(Utf8Encode(CharRefNumber(w[..n]))))
      else if tok == EntityRef then
        (if PredefinedEntityName(Inner(w[..n])).Some? then Add([PredefinedEntityName(Inner(w[..n])).value]) else Refer(Inner(w[..n])))
      else End(ValueError(Aborted))
    case Invalid(_) => End(ValueError(InvalidToken))
    case Partial => End(ValueError(InvalidToken))
    case _ => End(ValueError(Aborted))
  }

  function PartLength(enc: Encoding, w: string): (n: nat)
    ensures n <= |w|
  {
    match AttributeValueTok(enc, w) case Tok(_, n) => n case TrailingCr => 1 case _ => 0
  }

  lemma {:induction false} PartMoves(enc: Encoding, w: string)
    ensures !PartOf(enc, w).End? ==> 0 < PartLength(enc, w) <= |w|
  {
    hide Scan; hide ValueRun;
  }

  /** No character of several bytes has a space among them. */
  predicate Solid(enc: Encoding, w: string)
  {
    var v := AttributeValueTok(enc, w);
    v.Tok? && v.tok == DataChars ==> ' ' !in w[..v.next]
  }

  lemma {:induction false} CdataTurn(internal: Encoding, dtd: Dtd, open: set<string>, enc: Encoding, w: string, pool: string)
    ensures var rest := w[PartLength(enc, w)..];
            AppendValue(internal, dtd, open, enc, true, w, pool) ==
            match PartOf(enc, w)
            case End(r) => Behind(pool, r)
            case Add(text) => AppendValue(internal, dtd, open, enc, true, rest, pool + text)
            case Refer(name) =>
              (match ExpandEntity(internal, dtd, open, true, name, pool)
               case ValueError(code) => ValueError(code)
               case Value(pool') => AppendValue(internal, dtd, open, enc, true, rest, pool'))
  {
    hide AttributeValueTok; hide CharRefNumber; hide Utf8Encode; hide PredefinedEntityName; hide ExpandEntity; hide Inner;
    assert pool + "" == pool;
  }

  lemma {:induction false} OtherTurn(internal: Encoding, dtd: Dtd, open: set<string>, enc: Encoding, w: string, pool: string)
    requires Solid(enc, w)
    ensures var rest := w[PartLength(enc, w)..];
            AppendValue(internal, dtd, open, enc, false, w, pool) ==
            match PartOf(enc, w)
            case End(r) => Behind(pool, r)
            case Add(text) => AppendValue(internal, dtd, open, enc, false, rest, Squeeze(pool, text))
            case Refer(name) =>
              (match ExpandEntity(internal, dtd, open, false, name, pool)
               case ValueError(code) => ValueError(code)
               case Value(pool') => AppendValue(internal, dtd, open, enc, false, rest, pool'))
  {
    hide AttributeValueTok; hide CharRefNumber; hide Utf8Encode; hide PredefinedEntityName; hide ExpandEntity; hide Inner; hide Squeeze; hide AppendSpace;
    assert pool + "" == pool;
    SqueezeSpace(pool);
    var v := AttributeValueTok(enc, w);
    if v.Tok? {
      var token := w[..v.next];
      if v.tok == DataChars { SqueezeSolid(pool, token); }
      if v.tok == CharRef { NumberSqueezed(pool, CharRefNumber(token)); }
      if v.tok == EntityRef && PredefinedEntityName(Inner(token)).Some? { NameSqueezed(pool, Inner(token)); }
    }
  }

  /** Only the reference to a space gives a space. */
  lemma {:induction false} NumberSqueezed(pool: string, n: int)
    ensures Squeeze(pool, Utf8Encode(n)) == if n == 0x20 && EndsInSpace(pool) then pool else pool + Utf8Encode(n)
  {
    hide Squeeze; hide AppendSpace;
    var u := Utf8Encode(n);
    if n == 0x20 {
      assert u == " ";
      SqueezeSpace(pool);
      SpaceAppended(pool);
    } else {
      NoSpaceIn(n);
      SqueezeSolid(pool, u);
    }
  }

  lemma {:induction false} SpaceAppended(pool: string)
    ensures AppendSpace(false, pool) == if EndsInSpace(pool) then pool else pool + " "
  {
  }

  lemma {:induction false} NoSpaceIn(n: int)
    requires n != 0x20
    ensures ' ' !in Utf8Encode(n)
  {
  }

  lemma {:induction false} NameSqueezed(pool: string, name: string)
    requires PredefinedEntityName(name).Some?
    ensures var c := PredefinedEntityName(name).value; Squeeze(pool, [c]) == pool + [c]
  {
    hide Squeeze;
    SqueezeSolid(pool, [PredefinedEntityName(name).value]);
  }

  // ---- The whole value ----

  /** The same for every token of the value. */
  predicate AllSolid(enc: Encoding, w: string)
    decreases |w|
  {
    Solid(enc, w) && (PartOf(enc, w).End? || 0 == PartLength(enc, w) || AllSolid(enc, w[PartLength(enc, w)..]))
  }

  /** And for the texts of all entities. */
  predicate SolidEntities(internal: Encoding, dtd: Dtd)
  {
    forall name :: name in dtd.entities && dtd.entities[name].Internal? ==> AllSolid(internal, dtd.entities[name].text)
  }

  ghost function Left(dtd: Dtd, open: set<string>): nat { |dtd.entities.Keys - open| }

  lemma {:induction false} LessLeft(dtd: Dtd, open: set<string>, name: string)
    requires name in dtd.entities && name !in open
    ensures Left(dtd, open + {name}) < Left(dtd, open)
  {
    OpenSmaller(dtd.entities.Keys, open, name);
  }

  /** What is in the pool stays in front of a CDATA value. */
  lemma {:induction false} PoolInFront(internal: Encoding, dtd: Dtd, open: set<string>, enc: Encoding, w: string, pool: string)
    ensures AppendValue(internal, dtd, open, enc, true, w, pool) == Behind(pool, AppendValue(internal, dtd, open, enc, true, w, ""))
    decreases Left(dtd, open), |w|
  {
    hide *;
    CdataTurn(internal, dtd, open, enc, w, pool);
    CdataTurn(internal, dtd, open, enc, w, "");
    var part, rest := PartOf(enc, w), w[PartLength(enc, w)..];
    PartMoves(enc, w);
    match part
    case End(r) => BehindBehind(pool, "", r); BehindBehind("", "", r); assert pool + "" == pool;
    case Add(text) =>
      PoolInFront(internal, dtd, open, enc, rest, pool + text);
      PoolInFront(internal, dtd, open, enc, rest, "" + text);
      BehindBehind(pool, "" + text, AppendValue(internal, dtd, open, enc, true, rest, ""));
      assert pool + ("" + text) == pool + text;
    case Refer(name) =>
      EntityInFront(internal, dtd, open, enc, name, pool);
      var r := ExpandEntity(internal, dtd, open, true, name, "");
      IsBehind(pool, r);
      if r.Value? {
        PoolInFront(internal, dtd, open, enc, rest, pool + r.text);
        PoolInFront(internal, dtd, open, enc, rest, r.text);
        BehindBehind(pool, r.text, AppendValue(internal, dtd, open, enc, true, rest, ""));
      }
  }

  lemma {:induction false} IsBehind(pool: string, r: ValueResult)
    ensures Behind(pool, r) == if r.Value? then Value(pool + r.text) else r
  {
  }

  lemma {:induction false} EntityTurn(internal: Encoding, dtd: Dtd, open: set<string>, isCdata: bool, name: string, pool: string)
    ensures ExpandEntity(internal, dtd, open, isCdata, name, pool) ==
            if name !in dtd.entities then (if dtd.complete then ValueError(UndefinedEntity) else Value(pool))
            else if name in open then ValueError(RecursiveEntityRef)
            else match dtd.entities[name]
              case Unparsed => ValueError(BinaryEntityRef)
              case External => ValueError(AttributeExternalEntityRef)
              case Internal(text) => AppendValue(internal, dtd, open + {name}, internal, isCdata, text, pool)
  {
    hide AppendValue;
  }

  lemma {:induction false} EntityInFront(internal: Encoding, dtd: Dtd, open: set<string>, enc: Encoding, name: string, pool: string)
    ensures ExpandEntity(internal, dtd, open, true, name, pool) == Behind(pool, ExpandEntity(internal, dtd, open, true, name, ""))
    decreases Left(dtd, open), 0
  {
    hide *;
    EntityTurn(internal, dtd, open, true, name, pool);
    EntityTurn(internal, dtd, open, true, name, "");
    IsBehind(pool, ExpandEntity(internal, dtd, open, true, name, ""));
    assert pool + "" == pool;
    if name in dtd.entities && name !in open && dtd.entities[name].Internal? {
      LessLeft(dtd, open, name);
      PoolInFront(internal, dtd, open + {name}, internal, dtd.entities[name].text, pool);
    }
  }

  /** For other types, the pool takes the same characters, but no space behind a space. */
  lemma {:induction false} Tokenized(internal: Encoding, dtd: Dtd, open: set<string>, enc: Encoding, w: string, pool: string)
    requires AllSolid(enc, w) && SolidEntities(internal, dtd)
    ensures AppendValue(internal, dtd, open, enc, false, w, pool) == Squeezing(pool, AppendValue(internal, dtd, open, enc, true, w, ""))
    decreases Left(dtd, open), |w|
  {
    hide *;
    SolidFirst(enc, w);
    OtherTurn(internal, dtd, open, enc, w, pool);
    CdataTurn(internal, dtd, open, enc, w, "");
    var part, rest := PartOf(enc, w), w[PartLength(enc, w)..];
    PartMoves(enc, w);
    match part
    case End(r) => StopSqueezed(enc, w, pool); BehindBehind("", "", r);
    case Add(text) =>
      assert "" + text == text;
      Tokenized(internal, dtd, open, enc, rest, Squeeze(pool, text));
      PoolInFront(internal, dtd, open, enc, rest, text);
      SqueezingBehind(pool, text, AppendValue(internal, dtd, open, enc, true, rest, ""));
    case Refer(name) =>
      EntityTokenized(internal, dtd, open, name, pool);
      var r := ExpandEntity(internal, dtd, open, true, name, "");
      IsSqueezing(pool, r);
      if r.Value? {
        Tokenized(internal, dtd, open, enc, rest, Squeeze(pool, r.text));
        PoolInFront(internal, dtd, open, enc, rest, r.text);
        SqueezingBehind(pool, r.text, AppendValue(internal, dtd, open, enc, true, rest, ""));
      } else {
        IsSqueezing(pool, AppendValue(internal, dtd, open, enc, true, w, ""));
      }
  }

  lemma {:induction false} SolidFirst(enc: Encoding, w: string)
    requires AllSolid(enc, w)
    ensures Solid(enc, w) && (!PartOf(enc, w).End? ==> AllSolid(enc, w[PartLength(enc, w)..]))
  {
    hide PartOf; hide Solid;
    PartMoves(enc, w);
  }

  lemma {:induction false} StopSqueezed(enc: Encoding, w: string, pool: string)
    requires PartOf(enc, w).End?
    ensures Behind(pool, PartOf(enc, w).r) == Squeezing(pool, PartOf(enc, w).r)
  {
    hide AttributeValueTok; hide CharRefNumber; hide Utf8Encode; hide PredefinedEntityName; hide Inner;
    assert pool + "" == pool;
  }

  lemma {:induction false} IsSqueezing(pool: string, r: ValueResult)
    ensures Squeezing(pool, r) == if r.Value? then Value(Squeeze(pool, r.text)) else r
  {
  }

  lemma {:induction false} EntityTokenized(internal: Encoding, dtd: Dtd, open: set<string>, name: string, pool: string)
    requires SolidEntities(internal, dtd)
    ensures ExpandEntity(internal, dtd, open, false, name, pool) == Squeezing(pool, ExpandEntity(internal, dtd, open, true, name, ""))
    decreases Left(dtd, open), 0
  {
    hide AppendValue; hide ExpandEntity; hide AllSolid; hide Left; hide Squeeze;
    EntityTurn(internal, dtd, open, false, name, pool);
    EntityTurn(internal, dtd, open, true, name, "");
    assert Squeeze(pool, "") == pool by { SqueezeConcat(pool, "", ""); SqueezeSolid(pool, ""); }
    if name in dtd.entities && name !in open && dtd.entities[name].Internal? {
      LessLeft(dtd, open, name);
      Tokenized(internal, dtd, open + {name}, internal, dtd.entities[name].text, pool);
    }
  }

  /** storeAttributeValue: the value for CDATA, or the words of it. */
  lemma {:induction false} StoredTyped(internal: Encoding, dtd: Dtd, open: set<string>, enc: Encoding, isCdata: bool, w: string)
    requires AllSolid(enc, w) && SolidEntities(internal, dtd)
    ensures StoreValue(internal, dtd, open, enc, isCdata, w) ==
            match AppendValue(internal, dtd, open, enc, true, w, "")
            case ValueError(code) => ValueError(code)
            case Value(text) => Value(Typed(isCdata, text))
  {
    hide AppendValue; hide AllSolid; hide SolidEntities; hide Squeeze; hide Words; hide Spaced;
    if !isCdata {
      Tokenized(internal, dtd, open, enc, w, "");
      var r := AppendValue(internal, dtd, open, enc, true, w, "");
      if r.Value? { SqueezedWords(r.text); }
    }
  }

  // ---- Well-formed text is solid ----

  lemma {:induction false} CharSolid(enc: Encoding, w: string, p: nat)
    requires p < |w| && WellFormed(enc, w, p) && enc.byteType(' ') == S && enc.byteType(w[p]) != S && p + CharLength(enc.byteType(w[p])) <= |w|
    ensures var n := CharLength(enc.byteType(w[p])); ' ' !in w[p..p + n] && WellFormed(enc, w, p + n)
  {
  }

  lemma {:induction false} ShortSolid(enc: Encoding, w: string, p: nat)
    requires p < |w| && WellFormed(enc, w, p) && enc.byteType(' ') == S && p + CharLength(enc.byteType(w[p])) > |w|
    ensures ValueRun(enc, w, p) == Tok(DataChars, |w|) && ' ' !in w[p..|w|] && WellFormed(enc, w, |w|)
  {
  }

  lemma {:induction false} RunEnds(enc: Encoding, w: string, p: nat)
    requires p < |w| && ValueRun(enc, w, p).Tok?
    requires var t := enc.byteType(w[p]); t == LT || t == AMP || t == LF || t == CR || t == S
    ensures ValueRun(enc, w, p) == Tok(DataChars, p)
  {
  }

  lemma {:induction false} NoRun(enc: Encoding, w: string)
    ensures ValueRun(enc, w, |w|) == Tok(DataChars, |w|)
  {
  }

  lemma {:induction false} RunSolid(enc: Encoding, w: string, p: nat)
    requires p <= |w| && WellFormed(enc, w, p) && enc.byteType(' ') == S && ValueRun(enc, w, p).Tok?
    ensures var n := ValueRun(enc, w, p).next; ' ' !in w[p..n] && WellFormed(enc, w, n)
    decreases |w| - p
  {
    hide WellFormed; hide ValueRun;
    if p == |w| {
      NoRun(enc, w);
    } else {
      var t := enc.byteType(w[p]);
      var n := CharLength(t);
      if p + n > |w| {
        ShortSolid(enc, w, p);
      } else if t != LT && t != AMP && t != LF && t != CR && t != S {
        OneTurn(enc, w, p);
        CharSolid(enc, w, p);
        RunSolid(enc, w, p + n);
        var e := ValueRun(enc, w, p).next;
        assert w[p..e] == w[p..p + n] + w[p + n..e];
      } else {
        RunEnds(enc, w, p);
      }
    }
  }

  lemma {:induction false} WellFormedShift(enc: Encoding, w: string, k: nat, p: nat)
    requires k + p <= |w| && WellFormed(enc, w, k + p)
    ensures WellFormed(enc, w[k..], p)
    decreases |w| - p
  {
    if k + p < |w| {
      var n := CharLength(enc.byteType(w[k + p]));
      if k + p + n <= |w| { WellFormedShift(enc, w, k, p + n); }
    }
  }

  /** A reference ends where a character ends. */
  lemma {:induction false} RefBoundary(enc: Encoding, q: State, w: string, p: nat)
    requires Ascii(enc) && p <= |w| && WellFormed(enc, w, p) && RefPart(q) && q.ctx == InContent && Scan(enc, q, w, p).Tok?
    ensures WellFormed(enc, w, Scan(enc, q, w, p).next)
    decreases |w| - p
  {
    hide WellFormed; hide Scan; hide StepRef; hide Ascii;
    RefUnfold(enc, q, w, p);
    if p < |w| {
      var a := StepRef(enc, q, w[p..]);
      RefStep(enc, q, w, p);
      if a.Go? { RefBoundary(enc, a.q, w, p + a.n); }
    }
  }

  lemma {:induction false} RefStep(enc: Encoding, q: State, w: string, p: nat)
    requires Ascii(enc) && p < |w| && WellFormed(enc, w, p) && RefPart(q) && q.ctx == InContent
    ensures var a := StepRef(enc, q, w[p..]);
            && (a.Go? ==> RefPart(a.q) && a.q.ctx == InContent && 1 <= a.n <= |w| - p && WellFormed(enc, w, p + a.n))
            && (a.Accept? ==> p + a.n <= |w| && WellFormed(enc, w, p + a.n)) && (a.More? ==> !a.verdict.Tok?)
  {
    hide WellFormed; hide NameCase; hide NmstrtCase;
    assert LeadLength(enc.byteType('x')) == 0;
    WellFormedNext(enc, w, p);
    TakesChar(enc, w[p..]);
  }

  lemma {:induction false} TakesChar(enc: Encoding, w: string)
    requires w != ""
    ensures var n := CharLength(enc.byteType(w[0])); (NameCase(enc, w).Take? ==> NameCase(enc, w).n == n) && (NmstrtCase(enc, w).Take? ==> NmstrtCase(enc, w).n == n)
  {
  }

  lemma {:induction false} WellFormedNext(enc: Encoding, w: string, p: nat)
    requires p < |w| && WellFormed(enc, w, p)
    ensures WellFormed(enc, w, p + CharLength(enc.byteType(w[p])))
  {
  }

  lemma {:induction false} FirstSolid(enc: Encoding, w: string)
    requires WellFormed(enc, w, 0) && enc.byteType(' ') == S && Ascii(enc)
    ensures Solid(enc, w) && (!PartOf(enc, w).End? ==> WellFormed(enc, w[PartLength(enc, w)..], 0))
  {
    hide WellFormed; hide Scan; hide ValueRun; hide Ascii; hide CharRefNumber; hide Utf8Encode; hide PredefinedEntityName; hide Inner;
    var v := AttributeValueTok(enc, w);
    if v.Tok? {
      assert w != "";
      var t := enc.byteType(w[0]);
      if t == AMP {
        WellFormedNext(enc, w, 0);
        RefBoundary(enc, RefOpen(InContent), w, 1);
        RefNoData(enc, RefOpen(InContent), w, 1);
      } else if t == LF || t == CR || t == S {
        WellFormedNext(enc, w, 0);
        if v.next == 2 { WellFormedNext(enc, w, 1); }
      } else {
        RunSolid(enc, w, 0);
        assert w[0..v.next] == w[..v.next];
      }
      WellFormedShift(enc, w, v.next, 0);
    } else if v.TrailingCr? {
      assert w[1..] == "";
      NothingFormed(enc);
    }
  }

  lemma {:induction false} NothingFormed(enc: Encoding)
    ensures WellFormed(enc, "", 0)
  {
  }

  lemma {:induction false} RefNoData(enc: Encoding, q: State, w: string, p: nat)
    requires p <= |w| && RefPart(q) && q.ctx == InContent
    ensures Scan(enc, q, w, p).Tok? ==> Scan(enc, q, w, p).tok == EntityRef || Scan(enc, q, w, p).tok == CharRef
    decreases |w| - p
  {
    hide Scan; hide StepRef;
    RefUnfold(enc, q, w, p);
    if p < |w| {
      RefGives(enc, q, w[p..]);
      var a := StepRef(enc, q, w[p..]);
      if a.Go? { RefNoData(enc, a.q, w, p + a.n); }
    }
  }

  lemma {:induction false} RefGives(enc: Encoding, q: State, w: string)
    requires w != "" && RefPart(q) && q.ctx == InContent
    ensures var a := StepRef(enc, q, w);
            && (a.Go? ==> RefPart(a.q) && a.q.ctx == InContent && 1 <= a.n <= |w|) && (a.Accept? ==> a.tok == EntityRef || a.tok == CharRef)
            && (a.More? ==> !a.verdict.Tok?)
  {
  }

  lemma {:induction false} WellFormedSolid(enc: Encoding, w: string)
    requires WellFormed(enc, w, 0) && enc.byteType(' ') == S && Ascii(enc)
    ensures AllSolid(enc, w)
    decreases |w|
  {
    hide WellFormed; hide PartOf; hide Solid; hide Ascii;
    PartMoves(enc, w);
    FirstSolid(enc, w);
    var n := PartLength(enc, w);
    if !PartOf(enc, w).End? { WellFormedSolid(enc, w[n..]); }
  }

  /** Bytes of ASCII stand for themselves. */
  ghost predicate Ascii(enc: Encoding) { forall c: char :: c as int < 0x80 ==> LeadLength(enc.byteType(c)) == 0 }
}
