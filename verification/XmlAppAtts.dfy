/**
 storeAtts of libjabber/xmlparse.c in memory: the ATTRIBUTE records that getAtts
 filled in are overwritten, in the same array, by the name and value strings for
 the handler (`appAtts`), and a byte in front of every name marks it as seen.

 A record is four words long and a string pointer one, on 32 and on 64 bits.
 */
module XmlAppAtts {
  import opened XmlScan
  import opened XmlAtts
  import opened XmlValue
  import XmlTokImpl

  const INIT_ATTS_SIZE := 16

  datatype Word = Unset | Position(at: nat) | Mark(normalized: bool) | Text(s: string) | NullPointer

  /** The words of `atts[i]`. */
  predicate RecordAt(a: seq<Word>, i: nat, r: Attribute)
  {
    && 4 * i + 4 <= |a| && a[4 * i] == Position(r.name) && a[4 * i + 1] == Position(r.valuePtr)
    && a[4 * i + 2] == Position(r.valueEnd) && a[4 * i + 3] == Mark(r.normalized)
  }

  predicate RecordsFrom(a: seq<Word>, i: nat, list: seq<Attribute>)
  {
    forall j :: i <= j < |list| ==> RecordAt(a, j, list[j])
  }

  predicate PairAt(a: seq<Word>, k: nat, p: (string, string))
  {
    2 * k + 2 <= |a| && a[2 * k] == Text(p.0) && a[2 * k + 1] == Text(p.1)
  }

  predicate Pairs(a: seq<Word>, l: seq<(string, string)>)
  {
    forall k :: 0 <= k < |l| ==> PairAt(a, k, l[k])
  }

  function Names(l: seq<(string, string)>): set<string>
  {
    set k | 0 <= k < |l| :: l[k].0
  }

  lemma {:induction false} NamesMore(l: seq<(string, string)>, p: (string, string))
    ensures Names(l + [p]) == Names(l) + {p.0} && forall n :: n in Names(l) <==> Has(l, n)
  {
    var m := l + [p];
    assert m[|l|] == p && forall k :: 0 <= k < |l| ==> m[k] == l[k];
  }

  /** Record `i` turns into pair `i`; the records behind it are not touched, for 2 * i + 1 < 4 * (i + 1). */
  lemma {:induction false} Turned(a: seq<Word>, b: seq<Word>, i: nat, list: seq<Attribute>, l: seq<(string, string)>, p: (string, string))
    requires i < |list| && |l| == i && |a| == |b| && RecordsFrom(a, i, list) && Pairs(a, l)
    requires 4 * i + 4 <= |a| && b == a[2 * i := Text(p.0)][2 * i + 1 := Text(p.1)]
    ensures RecordsFrom(b, i + 1, list) && Pairs(b, l + [p])
  {
    forall j | i + 1 <= j < |list| ensures RecordAt(b, j, list[j]) { assert RecordAt(a, j, list[j]); }
    forall k | 0 <= k < |l| ensures PairAt(b, k, l[k]) { assert PairAt(a, k, l[k]); }
  }

  lemma {:induction false} PairAdded(a: seq<Word>, b: seq<Word>, l: seq<(string, string)>, p: (string, string))
    requires |a| == |b| && Pairs(a, l) && 2 * |l| + 2 <= |a| && b == a[2 * |l| := Text(p.0)][2 * |l| + 1 := Text(p.1)]
    ensures Pairs(b, l + [p])
  {
    forall k | 0 <= k < |l| ensures PairAt(b, k, l[k]) { assert PairAt(a, k, l[k]); }
  }

  lemma {:induction false} PairsKept(a: seq<Word>, b: seq<Word>, l: seq<(string, string)>)
    requires |a| == |b| && Pairs(a, l) && 2 * |l| <= |a| && b[..2 * |l|] == a[..2 * |l|]
    ensures Pairs(b, l)
  {
    forall k | 0 <= k < |l| ensures PairAt(b, k, l[k]) {
      assert PairAt(a, k, l[k]);
      assert b[..2 * |l|][2 * k] == b[2 * k] && b[..2 * |l|][2 * k + 1] == b[2 * k + 1];
    }
  }

  lemma {:induction false} StoreEachStep(internal: Encoding, dtd: Dtd, open: set<string>, enc: Encoding, tag: string, defaults: seq<DefaultAtt>, list: seq<Attribute>, i: nat, l: seq<(string, string)>)
    requires i < |list|
    ensures var name := NameAt(enc, tag, list[i].name);
            var raw := Slice(tag, list[i].valuePtr, list[i].valueEnd);
            StoreEach(internal, dtd, open, enc, tag, defaults, list[i..], l) ==
            if Has(l, name) then AttsError(DuplicateAttribute)
            else match if list[i].normalized then Value(raw) else StoreValue(internal, dtd, open, enc, IsCdata(defaults, name), raw)
                 case ValueError(code) => AttsError(code)
                 case Value(text) => StoreEach(internal, dtd, open, enc, tag, defaults, list[i + 1..], l + [(name, text)])
  {
    hide StoreValue; hide NameAt; hide Slice; hide IsCdata; hide Has;
    assert list[i..][0] == list[i] && list[i..][1..] == list[i + 1..];
  }

  lemma {:induction false} AddDefaultsStep(defaults: seq<DefaultAtt>, j: nat, l: seq<(string, string)>)
    requires j < |defaults|
    ensures var d := defaults[j];
            AddDefaults(defaults[j..], l) == AddDefaults(defaults[j + 1..], if !Has(l, d.name) && d.hasValue then l + [(d.name, d.value)] else l)
  {
    hide Has;
    assert defaults[j..][0] == defaults[j] && defaults[j..][1..] == defaults[j + 1..];
  }

  class AttributeStore {
    var atts: array<Word>
    var attsSize: nat
    var nSpecifiedAtts: nat
    /** The attribute names with a byte other than 0 in front. */
    var flagged: set<string>

    ghost predicate Valid()
      reads this
    {
      atts.Length == 4 * attsSize && attsSize >= 1
    }

    constructor ()
      ensures Valid() && flagged == {} && fresh(atts)
    {
      atts := new Word[4 * INIT_ATTS_SIZE](_ => Unset);
      attsSize, nSpecifiedAtts, flagged := INIT_ATTS_SIZE, 0, {};
    }

    /** XmlGetAttributes: the records that fit. */
    method GetAttributes(enc: Encoding, tag: string, attsMax: nat) returns (n: nat)
      requires Valid() && attsMax <= attsSize && tag != "" && GetAtts(enc, tag, 1, GETTER_START).Atts?
      modifies atts
      ensures var list := GetAtts(enc, tag, 1, GETTER_START).list;
              n == |list| && RecordsFrom(atts[..], 0, if n <= attsMax then list else list[..attsMax])
    {
      hide GetAtts;
      var found;
      n, found := XmlTokImpl.FillAtts(enc, tag, attsMax);
      for i := 0 to |found|
        invariant RecordsFrom(atts[..], 0, found[..i])
      {
        ghost var was := atts[..];
        var r := found[i];
        atts[4 * i], atts[4 * i + 1] := Position(r.name), Position(r.valuePtr);
        atts[4 * i + 2], atts[4 * i + 3] := Position(r.valueEnd), Mark(r.normalized);
        RecordAdded(was, atts[..], found, i);
      }
      assert found[..|found|] == found;
    }

    /** The records of the tag, in an array with room for them and for the default attributes. */
    method FillRecords(enc: Encoding, tag: string, nDefaultAtts: nat) returns (n: nat)
      requires Valid() && tag != "" && GetAtts(enc, tag, 1, GETTER_START).Atts?
      modifies `atts, `attsSize, atts
      ensures Valid() && (atts == old(atts) || fresh(atts))
      ensures n == |GetAtts(enc, tag, 1, GETTER_START).list| && n + nDefaultAtts <= attsSize
      ensures RecordsFrom(atts[..], 0, GetAtts(enc, tag, 1, GETTER_START).list)
    {
      hide GetAtts;
      n := GetAttributes(enc, tag, attsSize);
      if n + nDefaultAtts > attsSize {
        var oldAttsSize := attsSize;
        var was := atts;
        var size := n + nDefaultAtts + INIT_ATTS_SIZE;
        attsSize := size;
        atts := new Word[4 * size](k requires 0 <= k < 4 * size reads was => if k < was.Length then was[k] else Unset);
        forall j | 0 <= j < |GetAtts(enc, tag, 1, GETTER_START).list| && n <= oldAttsSize
          ensures RecordAt(atts[..], j, GetAtts(enc, tag, 1, GETTER_START).list[j])
        {
          assert RecordAt(was[..], j, GetAtts(enc, tag, 1, GETTER_START).list[j]);
        }
        if n > oldAttsSize { n := GetAttributes(enc, tag, n); }
      }
    }

    /** The loop over the specified attributes: record `i` is read before the words it lies in, or behind it, are written. */
    method RewriteSpecified(internal: Encoding, dtd: Dtd, open: set<string>, enc: Encoding, tag: string, defaults: seq<DefaultAtt>,
                            n: nat, ghost list: seq<Attribute>)
      returns (code: Option<Error>, attIndex: nat, ghost l: seq<(string, string)>)
      requires Valid() && flagged == {} && n == |list| <= attsSize && RecordsFrom(atts[..], 0, list)
      modifies `flagged, atts
      ensures match StoreEach(internal, dtd, open, enc, tag, defaults, list, [])
              case AttsError(c) => code == Some(c)
              case Stored(s) => code == None && l == s && |l| == n && attIndex == 2 * n && Pairs(atts[..], l) && flagged == Names(l)
    {
      hide StoreEach; hide StoreValue; hide NameAt; hide Slice; hide IsCdata; hide Has; hide RecordsFrom; hide Pairs; hide Names;
      attIndex, l := 0, [];
      assert list[0..] == list;
      NothingYet(atts[..]);
      for i := 0 to n
        invariant attIndex == 2 * i && |l| == i && flagged == Names(l)
        invariant RecordsFrom(atts[..], i, list) && Pairs(atts[..], l)
        invariant StoreEach(internal, dtd, open, enc, tag, defaults, list, []) == StoreEach(internal, dtd, open, enc, tag, defaults, list[i..], l)
      {
        ghost var was := atts[..];
        RecordHere(was, i, list);
        StoreEachStep(internal, dtd, open, enc, tag, defaults, list, i, l);
        var name := NameAt(enc, tag, atts[4 * i].at);
        NamesMore(l, (name, ""));
        if name in flagged { return Some(DuplicateAttribute), attIndex, l; }
        flagged := flagged + {name};
        atts[attIndex] := Text(name);
        attIndex := attIndex + 1;
        var raw := Slice(tag, atts[4 * i + 1].at, atts[4 * i + 2].at);
        var text := raw;
        if !atts[4 * i + 3].normalized {
          match StoreValue(internal, dtd, open, enc, IsCdata(defaults, name), raw)
          case ValueError(c) => return Some(c), attIndex, l;
          case Value(v) => text := v;
        }
        atts[attIndex] := Text(text);
        attIndex := attIndex + 1;
        assert atts[..] == was[2 * i := Text(name)][2 * i + 1 := Text(text)];
        Turned(was, atts[..], i, list, l, (name, text));
        NamesMore(l, (name, text));
        l := l + [(name, text)];
      }
      StoreEachEnd(internal, dtd, open, enc, tag, defaults, list, l);
      code := None;
    }

    /** The declared values of attributes that were not specified. */
    method AppendDefaults(defaults: seq<DefaultAtt>, start: nat, ghost l: seq<(string, string)>) returns (attIndex: nat)
      requires Valid() && start == 2 * |l| && |l| + |defaults| <= attsSize && Pairs(atts[..], l) && flagged == Names(l)
      modifies `flagged, atts
      ensures var all := AddDefaults(defaults, l);
              attIndex == 2 * |all| < 4 * attsSize && Pairs(atts[..], all) && flagged == Names(all)
    {
      hide AddDefaults; hide Pairs; hide Names; hide Has;
      attIndex := start;
      ghost var all := l;
      assert defaults[0..] == defaults;
      for j := 0 to |defaults|
        invariant attIndex == 2 * |all| && |all| <= |l| + j && Pairs(atts[..], all) && flagged == Names(all)
        invariant AddDefaults(defaults, l) == AddDefaults(defaults[j..], all)
      {
        var d := defaults[j];
        AddDefaultsStep(defaults, j, all);
        NamesMore(all, (d.name, d.value));
        if d.name !in flagged && d.hasValue {
          ghost var was := atts[..];
          flagged := flagged + {d.name};
          atts[attIndex] := Text(d.name);
          atts[attIndex + 1] := Text(d.value);
          attIndex := attIndex + 2;
          assert atts[..] == was[2 * |all| := Text(d.name)][2 * |all| + 1 := Text(d.value)];
          PairAdded(was, atts[..], all, (d.name, d.value));
          all := all + [(d.name, d.value)];
        }
      }
      DefaultsEnd(defaults, all);
    }

    /** The last loop: no name stays flagged. */
    method ClearFlags(attIndex: nat, ghost l: seq<(string, string)>)
      requires Valid() && attIndex == 2 * |l| && Pairs(atts[..], l) && flagged == Names(l)
      modifies `flagged
      ensures flagged == {}
    {
      var i := 0;
      while i < attIndex
        invariant i <= attIndex && i % 2 == 0
        invariant forall n :: n in flagged ==> exists k :: i / 2 <= k < |l| && l[k].0 == n
      {
        assert PairAt(atts[..], i / 2, l[i / 2]);
        flagged := flagged - {atts[i].s};
        i := i + 2;
      }
    }

    /** storeAtts on a whole tag. */
    method StoreAttributes(internal: Encoding, dtd: Dtd, open: set<string>, enc: Encoding, tag: string, element: string)
      returns (code: Option<Error>)
      requires Valid() && flagged == {} && tag != "" && GetAtts(enc, tag, 1, GETTER_START).Atts?
      modifies this, atts
      ensures Valid()
      ensures match StoreAtts(internal, dtd, open, enc, tag, element)
              case AttsError(c) => code == Some(c)
              case Stored(l) =>
                && code == None && flagged == {} && nSpecifiedAtts == 2 * |GetAtts(enc, tag, 1, GETTER_START).list|
                && Pairs(atts[..], l) && 2 * |l| < atts.Length && atts[2 * |l|] == NullPointer
    {
      hide StoreEach; hide GetAtts; hide AddDefaults; hide Pairs; hide Names; hide RecordsFrom;
      var defaults := Defaults(dtd, element);
      var n := FillRecords(enc, tag, |defaults|);
      ghost var list := GetAtts(enc, tag, 1, GETTER_START).list;
      var attIndex;
      ghost var l;
      code, attIndex, l := RewriteSpecified(internal, dtd, open, enc, tag, defaults, n, list);
      if code.Some? { return; }
      nSpecifiedAtts := attIndex;
      attIndex := AppendDefaults(defaults, attIndex, l);
      ghost var all := AddDefaults(defaults, l);
      ghost var was := atts[..];
      atts[attIndex] := NullPointer;
      assert atts[..][..2 * |all|] == was[..2 * |all|];
      PairsKept(was, atts[..], all);
      ClearFlags(attIndex, all);
    }
  }

  lemma {:induction false} NothingYet(a: seq<Word>)
    ensures Pairs(a, []) && Names([]) == {}
  {
  }

  lemma {:induction false} RecordAdded(a: seq<Word>, b: seq<Word>, list: seq<Attribute>, i: nat)
    requires i < |list| && |a| == |b| && RecordsFrom(a, 0, list[..i]) && RecordAt(b, i, list[i])
    requires forall k :: 0 <= k < 4 * i && k < |a| ==> a[k] == b[k]
    ensures RecordsFrom(b, 0, list[..i + 1])
  {
    var found := list[..i + 1];
    forall j | 0 <= j < |found| ensures RecordAt(b, j, found[j]) {
      if j < i {
        assert list[..i][j] == found[j];
        assert RecordAt(a, j, list[..i][j]);
      }
    }
  }

  lemma {:induction false} RecordHere(a: seq<Word>, i: nat, list: seq<Attribute>)
    requires i < |list| && RecordsFrom(a, i, list)
    ensures RecordAt(a, i, list[i])
  {
  }

  lemma {:induction false} StoreEachEnd(internal: Encoding, dtd: Dtd, open: set<string>, enc: Encoding, tag: string, defaults: seq<DefaultAtt>, list: seq<Attribute>, l: seq<(string, string)>)
    ensures StoreEach(internal, dtd, open, enc, tag, defaults, list[|list|..], l) == Stored(l)
  {
  }

  lemma {:induction false} DefaultsEnd(defaults: seq<DefaultAtt>, l: seq<(string, string)>)
    ensures AddDefaults(defaults[|defaults|..], l) == l
  {
  }
}
