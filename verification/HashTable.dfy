/**
 The hash table of libjabber/hashtable.c: open addressing with backward
 probing, doubled when half full.  It is proved to be a finite map.
 */
module HashTable {

  const INIT_SIZE := 64
  const WORD := 0x1_0000_0000_0000_0000

  class Named {
    const name: string

    constructor (name: string)
      ensures this.name == name
    {
      this.name := name;
    }
  }

  /** `hash`, in an unsigned long of 64 bits. */
  function HashFrom(s: string, h: nat): (r: nat)
    ensures h < WORD ==> r < WORD
  {
    if s == "" then h else HashFrom(s[1..], (h * 32 % WORD + h + s[0] as nat) % WORD)
  }

  method Hash(s: string) returns (h: nat)
    ensures h == HashFrom(s, 0)
  {
    h := 0;
    var i := 0;
    while i < |s|
      invariant i <= |s| && HashFrom(s[i..], h) == HashFrom(s, 0)
    {
      assert s[i..][1..] == s[i + 1..];
      h := (h * 32 % WORD + h + s[i] as nat) % WORD;
      i := i + 1;
    }
    assert s[i..] == "";
  }

  /** Where the search for a name starts: `h & (size - 1)`, for a size that is a power of two. */
  function Start(name: string, size: nat): (i: nat)
    requires size > 0
    ensures i < size
  {
    HashFrom(name, 0) % size
  }

  function Before(i: nat, size: nat): (j: nat)
    requires i < size
    ensures j < size
  {
    if i == 0 then size - 1 else i - 1
  }

  /** Going backward and around from `start`, `p` comes before `i`. */
  predicate Passed(start: nat, i: nat, p: nat)
  {
    if i <= start then i < p <= start else p <= start || i < p
  }

  lemma {:induction false} PassedNext(start: nat, i: nat, p: nat, size: nat)
    requires start < size && i < size && p < size
    ensures Before(i, size) != start ==> (Passed(start, Before(i, size), p) <==> Passed(start, i, p) || p == i)
    ensures Before(i, size) == start ==> Passed(start, i, p) || p == i
  {
  }

  lemma {:induction false} OneFirst(start: nat, i: nat, j: nat)
    requires i != j
    ensures Passed(start, i, j) <==> !Passed(start, j, i)
  {
  }

  type Slots = seq<Named?>

  /** A search for the entry at `i` gets there: no slot on the way is empty. */
  ghost predicate Reached(v: Slots, i: nat)
    requires i < |v| && v[i] != null
  {
    forall p :: 0 <= p < |v| && Passed(Start(v[i].name, |v|), i, p) ==> v[p] != null
  }

  ghost predicate Probed(v: Slots)
  {
    forall i :: 0 <= i < |v| && v[i] != null ==> Reached(v, i)
  }

  /** The entries of the map are in the slots, each once. */
  ghost predicate Holds(v: Slots, m: map<string, Named>)
  {
    && (forall i :: 0 <= i < |v| && v[i] != null ==> v[i].name in m && m[v[i].name] == v[i])
    && (forall n :: n in m ==> m[n].name == n && m[n] in v)
    && forall i, j :: 0 <= i < j < |v| && v[i] != null ==> v[i] != v[j]
  }

  function Used(v: Slots): (n: nat)
    ensures n <= |v|
  {
    if v == [] then 0 else Used(v[..|v| - 1]) + if v[|v| - 1] == null then 0 else 1
  }

  lemma {:induction false} UsedFull(v: Slots)
    requires forall i :: 0 <= i < |v| ==> v[i] != null
    ensures Used(v) == |v|
    decreases |v|
  {
    if v != [] { UsedFull(v[..|v| - 1]); }
  }

  lemma {:induction false} UsedNone(v: Slots)
    requires forall i :: 0 <= i < |v| ==> v[i] == null
    ensures Used(v) == 0
    decreases |v|
  {
    if v != [] { UsedNone(v[..|v| - 1]); }
  }

  lemma {:induction false} UsedMore(v: Slots, i: nat, x: Named)
    requires i < |v| && v[i] == null
    ensures Used(v[i := x]) == Used(v) + 1
    decreases |v|
  {
    var n := |v| - 1;
    if i < n {
      UsedMore(v[..n], i, x);
      assert v[i := x][..n] == v[..n][i := x];
    } else {
      assert v[i := x][..n] == v[..n];
    }
  }

  /** The state of a search at slot `i`: nothing empty, and not the name, on the way. */
  ghost predicate Searching(v: Slots, name: string, i: nat)
  {
    && i < |v|
    && forall p :: 0 <= p < |v| && Passed(Start(name, |v|), i, p) ==> v[p] != null && v[p].name != name
  }

  lemma {:induction false} SearchNext(v: Slots, name: string, i: nat)
    requires Searching(v, name, i) && v[i] != null && v[i].name != name && Used(v) < |v|
    ensures Before(i, |v|) != Start(name, |v|) && Searching(v, name, Before(i, |v|))
  {
    var start := Start(name, |v|);
    forall p | 0 <= p < |v| ensures Before(i, |v|) == start ==> v[p] != null { PassedNext(start, i, p, |v|); }
    if Before(i, |v|) == start { UsedFull(v); }
    forall p | 0 <= p < |v| && Passed(start, Before(i, |v|), p) ensures v[p] != null && v[p].name != name { PassedNext(start, i, p, |v|); }
  }

  /** At an empty slot the search is over: the name is nowhere. */
  lemma {:induction false} SearchFails(v: Slots, name: string, i: nat)
    requires Probed(v) && Searching(v, name, i) && v[i] == null
    ensures forall j :: 0 <= j < |v| && v[j] != null ==> v[j].name != name
  {
    forall j | 0 <= j < |v| && v[j] != null ensures v[j].name != name {
      if v[j].name == name {
        assert Reached(v, j);
        OneFirst(Start(name, |v|), i, j);
      }
    }
  }

  /** Filling the empty slot where the search for the name ended. */
  lemma {:induction false} Filled(v: Slots, i: nat, x: Named, m: map<string, Named>)
    requires Probed(v) && Holds(v, m) && Searching(v, x.name, i) && v[i] == null && x !in v
    ensures x.name !in m && Probed(v[i := x]) && Holds(v[i := x], m[x.name := x]) && Used(v[i := x]) == Used(v) + 1
  {
    var w := v[i := x];
    SearchFails(v, x.name, i);
    UsedMore(v, i, x);
    NotHeld(v, m, x.name);
    forall j | 0 <= j < |w| && w[j] != null ensures Reached(w, j) {
      if j != i { assert Reached(v, j); }
    }
    var m' := m[x.name := x];
    forall n | n in m' ensures m'[n].name == n && m'[n] in w {
      if n == x.name {
        assert w[i] == x;
      } else {
        var j :| 0 <= j < |v| && v[j] == m[n];
        assert w[j] == m[n];
      }
    }
    forall j, k | 0 <= j < k < |w| && w[j] != null ensures w[j] != w[k] { }
  }

  /** How many steps the search can still take. */
  function StepsLeft(start: nat, i: nat, size: nat): nat
    requires start < size && i < size
  {
    if i <= start then i + size - start else i - start
  }

  class Table {
    var v: array<Named?>
    var size: nat
    var used: nat
    var usedLim: nat
    ghost var entries: map<string, Named>

    ghost predicate Valid()
      reads this, v
    {
      && v.Length == size && used == |entries| == Used(v[..]) && Probed(v[..]) && Holds(v[..], entries)
      && (size == 0 ==> used == 0)
      && (size > 0 ==> usedLim == size / 2 && used <= usedLim && PowerOfTwo(size) && size >= INIT_SIZE)
    }

    /** hashTableInit. */
    constructor ()
      ensures Valid() && entries == map[] && fresh(v)
    {
      v := new Named?[0];
      size, used, usedLim, entries := 0, 0, 0, map[];
    }

    /** The probing loop: from the hash of the name backward to the name or to an empty slot. */
    method Probe(a: array<Named?>, name: string) returns (i: nat)
      requires a.Length > 0 && Used(a[..]) < a.Length
      ensures Searching(a[..], name, i) && (a[i] == null || a[i].name == name)
    {
      hide Used; hide Start; hide Passed;
      var h := Hash(name);
      i := h % a.Length;
      StartIs(name, a.Length);
      SearchStart(a[..], name);
      while a[i] != null
        invariant i < a.Length && Searching(a[..], name, i)
        decreases StepsLeft(Start(name, a.Length), i, a.Length)
      {
        if a[i].name == name { return i; }
        SearchNext(a[..], name, i);
        i := if i == 0 then a.Length - 1 else i - 1;
      }
    }

    /** The end of lookup, and of every turn of its rehashing loop: the entry goes to the empty slot its search ends at. */
    method Place(a: array<Named?>, x: Named, ghost m: map<string, Named>)
      requires Probed(a[..]) && Holds(a[..], m) && x.name !in m && x !in a[..] && Used(a[..]) < a.Length
      modifies a
      ensures Probed(a[..]) && Holds(a[..], m[x.name := x]) && Used(a[..]) == Used(old(a[..])) + 1
    {
      hide Used; hide Start; hide Passed; hide Probed; hide Holds; hide Searching;
      var i := Probe(a, x.name);
      SearchedAt(a[..], x.name, i);
      NotSeen(a[..], m, x.name, i);
      ghost var was := a[..];
      Filled(was, i, x, m);
      a[i] := x;
      assert a[..] == was[i := x];
    }

    /** lookup. */
    method Lookup(name: string, create: bool) returns (r: Named?)
      requires Valid()
      modifies this, v
      ensures Valid() && (v == old(v) || fresh(v))
      ensures name in old(entries) ==> r == old(entries)[name] && entries == old(entries)
      ensures name !in old(entries) && !create ==> r == null && entries == old(entries)
      ensures name !in old(entries) && create ==> r != null && fresh(r) && r.name == name && entries == old(entries)[name := r]
      ensures !create || name in old(entries) ==> v == old(v) && v[..] == old(v[..])
    {
      hide Used; hide Start; hide Passed; hide Probed; hide Holds; hide Searching; hide PowerOfTwo;
      if size == 0 {
        NothingHeld(v[..], entries);
        if !create { return null; }
        v := new Named?[INIT_SIZE](_ => null);
        size := INIT_SIZE;
        usedLim := INIT_SIZE / 2;
        AllEmpty(v[..]);
        FirstPower();
      } else {
        var i := Probe(v, name);
        SearchedAt(v[..], name, i);
        if v[i] != null {
          HeldAt(v[..], entries, i);
          return v[i];
        }
        SearchFails(v[..], name, i);
        NotHeld(v[..], entries, name);
        if !create { return null; }
        if used == usedLim { Rehash(); }
      }
      r := new Named(name);
      assert r !in v[..];
      Place(v, r, entries);
      used := used + 1;
      entries := entries[name := r];
    }

    /** The branch of lookup that moves all entries to a table of twice the size. */
    method Rehash()
      requires Valid() && size > 0
      modifies `v, `size, `usedLim
      ensures Valid() && fresh(v) && size == 2 * old(size) && used < usedLim
    {
      hide Used; hide Start; hide Passed; hide Probed; hide Holds; hide PowerOfTwo;
      var newSize := size * 2;
      var newV := new Named?[newSize](_ => null);
      AllEmpty(newV[..]);
      ghost var m: map<string, Named> := map[];
      ghost var was := v[..];
      assert was[..0] == [];
      NoneUsed();
      NoneMoved(was, entries);
      for i := 0 to size
        modifies newV
        invariant Probed(newV[..]) && Holds(newV[..], m) && |m| == Used(newV[..]) == Used(was[..i]) && Moved(was, entries, i, m)
      {
        UsedStep(was, i);
        UsedOf(was, i);
        if v[i] != null {
          MovedNew(was, entries, i, m, newV[..]);
          Place(newV, v[i], m);
          m := m[v[i].name := v[i]];
        }
        MovedNext(was, entries, i);
      }
      assert was[..size] == was;
      AllMoved(was, entries, m);
      NextPower(size);
      v := newV;
      size := newSize;
      usedLim := newSize / 2;
    }
  }

  lemma {:induction false} SearchedAt(v: Slots, name: string, i: nat)
    requires Searching(v, name, i)
    ensures i < |v|
  {
  }

  lemma {:induction false} HeldAt(v: Slots, m: map<string, Named>, i: nat)
    requires Holds(v, m) && i < |v| && v[i] != null
    ensures v[i].name in m && m[v[i].name] == v[i]
  {
  }

  lemma {:induction false} UsedOf(v: Slots, i: nat)
    requires i < |v|
    ensures Used(v[..i + 1]) <= Used(v) && (v[i] != null ==> Used(v[..i]) < |v|)
    decreases |v| - i
  {
    UsedStep(v, i);
    if i + 1 == |v| { assert v[..i + 1] == v; } else { UsedStep(v, i + 1); UsedOf(v, i + 1); }
  }

  /** The entries of the first `i` slots, in the new table. */
  ghost predicate Moved(v: Slots, entries: map<string, Named>, i: nat, m: map<string, Named>)
    requires i <= |v|
  {
    && (forall k :: k in m ==> k in entries && m[k] == entries[k])
    && (forall j :: 0 <= j < i && v[j] != null ==> v[j].name in m)
    && forall k :: k in m ==> exists j :: 0 <= j < i && v[j] != null && v[j].name == k
  }

  lemma {:induction false} NoneMoved(v: Slots, entries: map<string, Named>)
    ensures Moved(v, entries, 0, map[])
  {
  }

  lemma {:induction false} MovedNext(v: Slots, entries: map<string, Named>, i: nat)
    requires Holds(v, entries) && i < |v|
    ensures forall m :: Moved(v, entries, i, m) ==> Moved(v, entries, i + 1, if v[i] == null then m else m[v[i].name := v[i]])
  {
  }

  ghost predicate PowerOfTwo(n: nat)
  {
    n == 1 || (n > 0 && n % 2 == 0 && PowerOfTwo(n / 2))
  }

  lemma {:induction false} FirstPower()
    ensures PowerOfTwo(INIT_SIZE)
  {
    assert PowerOfTwo(1) && PowerOfTwo(2) && PowerOfTwo(4) && PowerOfTwo(8) && PowerOfTwo(16) && PowerOfTwo(32);
  }

  lemma {:induction false} NextPower(n: nat)
    requires PowerOfTwo(n)
    ensures PowerOfTwo(2 * n)
  {
    assert 2 * n / 2 == n;
  }

  lemma {:induction false} StartIs(name: string, size: nat)
    requires size > 0
    ensures Start(name, size) == HashFrom(name, 0) % size
  {
  }

  lemma {:induction false} SearchStart(v: Slots, name: string)
    requires |v| > 0
    ensures Searching(v, name, Start(name, |v|))
  {
  }

  lemma {:induction false} AllEmpty(v: Slots)
    requires forall i :: 0 <= i < |v| ==> v[i] == null
    ensures Probed(v) && Holds(v, map[]) && Used(v) == 0
  {
    UsedNone(v);
  }

  lemma {:induction false} NoneUsed()
    ensures Used([]) == 0
  {
  }

  lemma {:induction false} UsedStep(v: Slots, i: nat)
    requires i < |v|
    ensures Used(v[..i + 1]) == Used(v[..i]) + if v[i] == null then 0 else 1
  {
    assert v[..i + 1][..i] == v[..i];
  }

  lemma {:induction false} NothingHeld(v: Slots, m: map<string, Named>)
    requires Holds(v, m) && v == []
    ensures m == map[]
  {
  }

  lemma {:induction false} NotHeld(v: Slots, m: map<string, Named>, name: string)
    requires Holds(v, m) && forall j :: 0 <= j < |v| && v[j] != null ==> v[j].name != name
    ensures name !in m
  {
  }

  /** A name that is in no entry ends the search at an empty slot. */
  lemma {:induction false} NotSeen(v: Slots, m: map<string, Named>, name: string, i: nat)
    requires Holds(v, m) && name !in m && i < |v| && (v[i] == null || v[i].name == name)
    ensures v[i] == null
  {
  }

  /** The next entry to be moved is not in the new table yet. */
  lemma {:induction false} MovedNew(v: Slots, entries: map<string, Named>, i: nat, m: map<string, Named>, w: Slots)
    requires Holds(v, entries) && Holds(w, m) && i < |v| && v[i] != null && Moved(v, entries, i, m)
    ensures v[i].name !in m && v[i] !in w
  {
    forall j | 0 <= j < i && v[j] != null ensures v[j].name != v[i].name {
      assert v[j].name in entries && entries[v[j].name] == v[j] && entries[v[i].name] == v[i];
    }
  }

  lemma {:induction false} AllMoved(v: Slots, entries: map<string, Named>, m: map<string, Named>)
    requires Holds(v, entries) && Moved(v, entries, |v|, m)
    ensures m == entries
  {
    forall k | k in entries ensures k in m {
      var j :| 0 <= j < |v| && v[j] == entries[k];
      assert v[j].name == k;
    }
  }

  // ---- The iterator ----

  /** The entries in the order of their slots. */
  function Entries(v: Slots): (l: seq<Named>)
    ensures |l| == Used(v)
  {
    if v == [] then []
    else
      var x := v[|v| - 1];
      Entries(v[..|v| - 1]) + if x == null then [] else [x]
  }

  lemma {:induction false} EntriesNext(v: Slots, i: nat)
    requires i < |v|
    ensures Entries(v[..i + 1]) == Entries(v[..i]) + if v[i] == null then [] else [v[i]]
  {
    assert v[..i + 1][..i] == v[..i];
  }

  lemma {:induction false} EntriesIn(v: Slots, x: Named)
    ensures x in Entries(v) <==> x in v
    decreases |v|
  {
    if v != [] {
      var n := |v| - 1;
      EntriesIn(v[..n], x);
      assert v == v[..n] + [v[n]];
    }
  }

  lemma {:induction false} EntriesOnce(v: Slots)
    requires forall i, j :: 0 <= i < j < |v| && v[i] != null ==> v[i] != v[j]
    ensures forall a, b :: 0 <= a < b < |Entries(v)| ==> Entries(v)[a] != Entries(v)[b]
    decreases |v|
  {
    if v != [] {
      var n := |v| - 1;
      EntriesOnce(v[..n]);
      if v[n] != null {
        EntriesIn(v[..n], v[n]);
        assert v[n] !in v[..n];
        assert forall a :: 0 <= a < |Entries(v[..n])| ==> Entries(v[..n])[a] in Entries(v[..n]);
      }
    }
  }

  class Iterator {
    const slots: array<Named?>
    var p: nat
    const end: nat

    ghost predicate Valid()
      reads this
    {
      p <= end == slots.Length
    }

    /** hashTableIterInit. */
    constructor (table: Table)
      requires table.Valid()
      ensures Valid() && p == 0 && slots == table.v
    {
      slots, p, end := table.v, 0, table.v.Length;
    }

    /** hashTableIterNext: the next entry, or NULL behind the last. */
    method Next() returns (r: Named?)
      requires Valid()
      modifies this
      ensures Valid() && Entries(slots[..p]) == Entries(slots[..old(p)]) + if r == null then [] else [r]
      ensures if r == null then p == end else p > old(p)
    {
      hide Entries;
      while p != end
        invariant Valid() && p >= old(p) && Entries(slots[..p]) == Entries(slots[..old(p)])
        decreases end - p
      {
        EntriesNext(slots[..], p);
        assert slots[..][..p] == slots[..p] && slots[..][..p + 1] == slots[..p + 1];
        var tem := slots[p];
        p := p + 1;
        if tem != null { return tem; }
      }
      return null;
    }
  }

  /** Iterating over a table gives every entry of the map, and gives it once. */
  method AllEntries(table: Table) returns (l: seq<Named>)
    requires table.Valid()
    ensures |l| == |table.entries| && (forall i, j :: 0 <= i < j < |l| ==> l[i] != l[j])
    ensures forall x :: x in l <==> x.name in table.entries && table.entries[x.name] == x
  {
    hide Used; hide Entries; hide Probed; hide Holds; hide PowerOfTwo;
    var iter := new Iterator(table);
    l := [];
    ghost var v := table.v[..];
    assert v[..0] == [];
    NoEntries();
    while true
      invariant iter.Valid() && fresh(iter) && iter.slots == table.v && l == Entries(v[..iter.p])
      decreases iter.end - iter.p
    {
      var x := iter.Next();
      assert iter.slots[..iter.p] == v[..iter.p];
      if x == null { break; }
      l := l + [x];
    }
    assert v[..iter.p] == v;
    assert l == Entries(v);
    SlotsDiffer(v, table.entries);
    EntriesOnce(v);
    Distinct(l, Entries(v));
    forall x ensures x in l <==> x.name in table.entries && table.entries[x.name] == x {
      EntriesIn(v, x);
      EntryIn(v, table.entries, x);
    }
  }

  lemma {:induction false} Distinct(l: seq<Named>, m: seq<Named>)
    requires l == m && forall a, b :: 0 <= a < b < |m| ==> m[a] != m[b]
    ensures forall i, j :: 0 <= i < j < |l| ==> l[i] != l[j]
  {
  }

  lemma {:induction false} SlotsDiffer(v: Slots, m: map<string, Named>)
    requires Holds(v, m)
    ensures forall i, j :: 0 <= i < j < |v| && v[i] != null ==> v[i] != v[j]
  {
  }

  lemma {:induction false} NoEntries()
    ensures Entries([]) == []
  {
  }

  lemma {:induction false} EntryIn(v: Slots, m: map<string, Named>, x: Named)
    requires Holds(v, m)
    ensures x in v <==> x.name in m && m[x.name] == x
  {
  }
}
