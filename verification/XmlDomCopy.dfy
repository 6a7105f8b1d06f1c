/**
 xmlnode_cmp, and duplication: xmlnode_insert_node, xmlnode_insert_tag_node and
 xmlnode_dup of libjabber/xmlnode.c.
 */
module XmlDomCopy {
  import opened XmlValue
  import opened XmlTree
  import opened XmlNodes
  import opened XmlDom

  // ---- Comparison ----

  datatype Item = AttItem(name: string, value: string) | TreeItem(tree: Tree)

  ghost predicate Listed(v: Nodes, l: seq<nat>)
  {
    && Ok(v)
    && forall n :: 0 <= n < |l| ==> ListedAt(v, l, n)
  }

  ghost predicate ListedAt(v: Nodes, l: seq<nat>, n: nat)
    requires n < |l|
  {
    && l[0] <= l[n] < |v.nodes| && v.nodes[l[n]].next == (if n + 1 < |l| then Some(l[n + 1]) else None)
  }

  ghost function ItemOf(v: Nodes, i: nat): Item
    requires Ok(v) && i < |v.nodes|
  {
    if v.nodes[i].kind == AttribNode then AttItem(v.nodes[i].name, v.nodes[i].data) else TreeItem(TreeOf(v, i))
  }

  /** What a list of nodes, with all below them, stands for. */
  ghost function ItemsOf(v: Nodes, l: seq<nat>): seq<Item>
    requires Ok(v) && forall n :: 0 <= n < |l| ==> l[n] < |v.nodes|
  {
    seq(|l|, n requires 0 <= n < |l| => ItemOf(v, l[n]))
  }

  lemma {:induction false} ListsListed(v: Nodes, i: nat)
    requires Ok(v) && i < |v.nodes|
    ensures Listed(v, v.kids[i]) && Listed(v, v.atts[i])
    ensures (v.kids[i] != [] ==> i < v.kids[i][0]) && (v.atts[i] != [] ==> i < v.atts[i][0])
  {
    forall n | 0 <= n < |v.kids[i]| ensures ListedAt(v, v.kids[i], n) {
      KidFacts(v, i, n);
      if n > 0 { Ordered(v.nodes, v.kids[i], 0, n) by { assert OkAt(v, i); } }
    }
    forall n | 0 <= n < |v.atts[i]| ensures ListedAt(v, v.atts[i], n) {
      AttFacts(v, i, n);
      if n > 0 { Ordered(v.nodes, v.atts[i], 0, n) by { assert OkAt(v, i); } }
    }
    if v.kids[i] != [] { KidFacts(v, i, 0); }
    if v.atts[i] != [] { AttFacts(v, i, 0); }
  }

  /** Two tags stand for the same tree exactly when their names, their attribute lists and their lists of children agree. */
  lemma {:induction false} TagsEqual(v: Nodes, a: nat, b: nat)
    requires Ok(v) && a < |v.nodes| && b < |v.nodes| && v.nodes[a].kind == TagNode && v.nodes[b].kind == TagNode
    requires Listed(v, v.kids[a]) && Listed(v, v.kids[b]) && Listed(v, v.atts[a]) && Listed(v, v.atts[b])
    requires forall n :: 0 <= n < |v.kids[a]| ==> v.kids[a][n] < |v.nodes|
    requires forall n :: 0 <= n < |v.kids[b]| ==> v.kids[b][n] < |v.nodes|
    requires forall n :: 0 <= n < |v.atts[a]| ==> v.atts[a][n] < |v.nodes|
    requires forall n :: 0 <= n < |v.atts[b]| ==> v.atts[b][n] < |v.nodes|
    ensures ItemOf(v, a) == ItemOf(v, b) <==>
              v.nodes[a].name == v.nodes[b].name && ItemsOf(v, v.atts[a]) == ItemsOf(v, v.atts[b]) && ItemsOf(v, v.kids[a]) == ItemsOf(v, v.kids[b])
  {
    PairsItems(v, a, b);
    KidsItems(v, a, b);
    KidsInRange(v, a);
    KidsInRange(v, b);
  }

  lemma {:induction false} PairsItems(v: Nodes, a: nat, b: nat)
    requires Ok(v) && a < |v.nodes| && b < |v.nodes|
    requires forall n :: 0 <= n < |v.atts[a]| ==> v.atts[a][n] < |v.nodes|
    requires forall n :: 0 <= n < |v.atts[b]| ==> v.atts[b][n] < |v.nodes|
    ensures AttPairs(v, a) == AttPairs(v, b) <==> ItemsOf(v, v.atts[a]) == ItemsOf(v, v.atts[b])
  {
    hide TreeOf;
    var p, q := AttPairs(v, a), AttPairs(v, b);
    var s, t := ItemsOf(v, v.atts[a]), ItemsOf(v, v.atts[b]);
    forall n | 0 <= n < |p| ensures s[n] == AttItem(p[n].0, p[n].1) { AttFacts(v, a, n); }
    forall n | 0 <= n < |q| ensures t[n] == AttItem(q[n].0, q[n].1) { AttFacts(v, b, n); }
    assert |s| == |p| && |t| == |q|;
    if s == t { assert forall n :: 0 <= n < |p| ==> AttItem(p[n].0, p[n].1) == AttItem(q[n].0, q[n].1); }
  }

  lemma {:induction false} KidsItems(v: Nodes, a: nat, b: nat)
    requires Ok(v) && a < |v.nodes| && b < |v.nodes|
    requires forall n :: 0 <= n < |v.kids[a]| ==> v.kids[a][n] < |v.nodes|
    requires forall n :: 0 <= n < |v.kids[b]| ==> v.kids[b][n] < |v.nodes|
    ensures KidTrees(v, a) == KidTrees(v, b) <==> ItemsOf(v, v.kids[a]) == ItemsOf(v, v.kids[b])
  {
    hide TreeOf; hide TreesOf;
    KidsInRange(v, a);
    KidsInRange(v, b);
    var p, q := KidTrees(v, a), KidTrees(v, b);
    var s, t := ItemsOf(v, v.kids[a]), ItemsOf(v, v.kids[b]);
    forall n | 0 <= n < |p| ensures s[n] == TreeItem(p[n]) { TreesAt(v, a, v.kids[a], n); }
    forall n | 0 <= n < |q| ensures t[n] == TreeItem(q[n]) { TreesAt(v, b, v.kids[b], n); }
    assert |s| == |p| && |t| == |q|;
    if s == t { assert forall n :: 0 <= n < |p| ==> TreeItem(p[n]) == TreeItem(q[n]); }
  }

  /** xmlnode_cmp answers 0 exactly for lists that stand for the same trees, or the same attributes in the same order. */
  method Compare(d: Dom, first: Option<nat>, second: Option<nat>, ghost l: seq<nat>, ghost m: seq<nat>) returns (r: int)
    requires d.Valid() && first == First(l) && second == First(m) && Listed(d.View(), l) && Listed(d.View(), m)
    requires forall n :: 0 <= n < |l| ==> l[n] < |d.nodes|
    requires forall n :: 0 <= n < |m| ==> m[n] < |d.nodes|
    ensures r == 0 || r == -1
    ensures r == 0 <==> ItemsOf(d.View(), l) == ItemsOf(d.View(), m)
    decreases if l == [] then 0 else |d.nodes| - l[0]
  {
    hide TreeOf;
    ghost var v := d.View();
    ghost var s, t := ItemsOf(v, l), ItemsOf(v, m);
    var a, b := first, second;
    ghost var n := 0;
    while true
      invariant n <= |l| && n <= |m| && a == (if n < |l| then Some(l[n]) else None) && b == (if n < |m| then Some(m[n]) else None)
      invariant s[..n] == t[..n]
      decreases |l| - n
    {
      if a.None? && b.None? {
        assert s[..n] == s && t[..n] == t;
        return 0;
      }
      if a.None? || b.None? { return -1; }
      assert ListedAt(v, l, n) && ListedAt(v, m, n);
      var i, j := a.value, b.value;
      if d.nodes[i].kind != d.nodes[j].kind {
        assert s[n] != t[n] by { KindsDiffer(v, i, j); }
        return -1;
      }
      match d.nodes[i].kind {
        case AttribNode =>
          if d.nodes[i].name != d.nodes[j].name || d.nodes[i].data != d.nodes[j].data { assert s[n] != t[n]; return -1; }
        case TagNode =>
          ListsListed(v, i);
          ListsListed(v, j);
          EndFacts(v, i);
          EndFacts(v, j);
          KidsInRange(v, i);
          KidsInRange(v, j);
          TagsEqual(v, i, j);
          assert s[n] == ItemOf(v, i) && t[n] == ItemOf(v, j);
          if d.nodes[i].name != d.nodes[j].name { return -1; }
          var ret := Compare(d, d.nodes[i].firstattrib, d.nodes[j].firstattrib, d.atts[i], d.atts[j]);
          if ret != 0 { return -1; }
          ret := Compare(d, d.nodes[i].firstchild, d.nodes[j].firstchild, d.kids[i], d.kids[j]);
          if ret != 0 { return -1; }
        case CdataNode =>
          assert s[n] == t[n] <==> d.nodes[i].data == d.nodes[j].data by { TextsEqual(v, i, j); }
          if d.nodes[i].data != d.nodes[j].data { return -1; }
      }
      assert s[n] == t[n];
      assert s[..n + 1] == s[..n] + [s[n]] && t[..n + 1] == t[..n] + [t[n]];
      a, b := d.nodes[i].next, d.nodes[j].next;
      n := n + 1;
    }
  }

  lemma {:induction false} KindsDiffer(v: Nodes, i: nat, j: nat)
    requires Ok(v) && i < |v.nodes| && j < |v.nodes| && v.nodes[i].kind != v.nodes[j].kind
    ensures ItemOf(v, i) != ItemOf(v, j)
  {
  }

  lemma {:induction false} TextsEqual(v: Nodes, i: nat, j: nat)
    requires Ok(v) && i < |v.nodes| && j < |v.nodes| && v.nodes[i].kind == CdataNode && v.nodes[j].kind == CdataNode
    ensures ItemOf(v, i) == ItemOf(v, j) <==> v.nodes[i].data == v.nodes[j].data
  {
  }

  // ---- Copies ----

  /** A tree as copying it rebuilds it: attributes are put one by one, and text that became the neighbour of text is merged. */
  function Merged(t: Tree): Tree
    decreases t, 0
  {
    match t
    case Text(data) => t
    case Tag(name, atts, kids) => Tree.Tag(name, PutAtts([], atts), AddAll([], kids))
  }

  function AddAll(done: seq<Tree>, l: seq<Tree>): seq<Tree>
    decreases l, 0
  {
    if l == [] then done else AddAll(if l[0].Text? then AddText(done, l[0].data) else done + [Merged(l[0])], l[1..])
  }

  /** No two texts are neighbours, and attribute names are unique. */
  predicate Separate(t: Tree)
    decreases t, 0
  {
    t.Tag? ==> Unique(t.atts) && SeparateAll(t.kids)
  }

  predicate SeparateAll(l: seq<Tree>)
    decreases l, 0
  {
    l == [] || (Separate(l[0]) && SeparateAll(l[1..]) && (|l| > 1 ==> !(l[0].Text? && l[1].Text?)))
  }

  // ---- When a copy is equal ----

  lemma {:induction false} PutKeepsUnique(atts: seq<(string, string)>, name: string, value: string)
    requires Unique(atts)
    ensures Unique(PutAtt(atts, name, value))
    ensures forall n :: n in Keys(PutAtt(atts, name, value)) <==> n in Keys(atts) || n == name
    decreases |atts|
  {
    if atts != [] && atts[0].0 != name {
      var rest := PutAtt(atts[1..], name, value);
      PutKeepsUnique(atts[1..], name, value);
      var r := [atts[0]] + rest;
      assert atts == [atts[0]] + atts[1..];
      KeysOfCons(atts[0], atts[1..]);
      KeysOfCons(atts[0], rest);
      assert atts[0].0 !in Keys(atts[1..]);
      forall a, b | 0 <= a < b < |r| ensures r[a].0 != r[b].0 {
        if a == 0 { assert rest[b - 1].0 in Keys(rest); } else { assert rest[a - 1].0 != rest[b - 1].0; }
      }
    } else if atts != [] {
      KeysOfCons(atts[0], atts[1..]);
      KeysOfCons((name, value), atts[1..]);
      assert atts == [atts[0]] + atts[1..];
    } else {
      KeysOfCons((name, value), []);
      assert [(name, value)] + [] == [(name, value)];
    }
  }

  ghost function Keys(atts: seq<(string, string)>): iset<string>
  {
    iset i | 0 <= i < |atts| :: atts[i].0
  }

  lemma {:induction false} KeysOfCons(a: (string, string), l: seq<(string, string)>)
    ensures forall n :: n in Keys([a] + l) <==> n == a.0 || n in Keys(l)
  {
    var r := [a] + l;
    forall n ensures n in Keys(r) <==> n == a.0 || n in Keys(l) {
      if n == a.0 { assert r[0].0 == n; }
      if n in Keys(l) { var i :| 0 <= i < |l| && l[i].0 == n; assert r[i + 1].0 == n; }
      if n in Keys(r) { var i :| 0 <= i < |r| && r[i].0 == n; if i > 0 { assert l[i - 1].0 == n; } }
    }
  }

  lemma {:induction false} PutAllKeepsUnique(atts: seq<(string, string)>, more: seq<(string, string)>)
    requires Unique(atts)
    ensures Unique(PutAtts(atts, more))
    decreases |more|
  {
    hide Unique;
    if more != [] {
      PutKeepsUnique(atts, more[0].0, more[0].1);
      PutAllKeepsUnique(PutAtt(atts, more[0].0, more[0].1), more[1..]);
    }
  }

  lemma {:induction false} SeparateLast(l: seq<Tree>, t: Tree)
    ensures SeparateAll(l + [t]) <==> SeparateAll(l) && Separate(t) && (l != [] ==> !(l[|l| - 1].Text? && t.Text?))
    decreases |l|
  {
    hide Separate;
    if l == [] {
      assert [] + [t] == [t] && [t][1..] == [];
    } else {
      assert (l + [t])[1..] == l[1..] + [t];
      SeparateLast(l[1..], t);
    }
  }

  /** What the insert functions keep. */
  lemma {:induction false} InsertsKeepSeparate(kids: seq<Tree>, s: string, name: string)
    requires SeparateAll(kids)
    ensures SeparateAll(AddText(kids, s)) && SeparateAll(kids + [Tree.Tag(name, [], [])])
  {
    SeparateLast(kids, Text(s));
    SeparateLast(kids, Tree.Tag(name, [], []));
    if kids != [] && kids[|kids| - 1].Text? {
      var low, last := kids[..|kids| - 1], kids[|kids| - 1];
      assert kids == low + [last];
      SeparateLast(low, last);
      SeparateLast(low, Text(last.data + s));
    }
  }

  lemma {:induction false} OneSeparate(t: Tree)
    requires t.Text?
    ensures Separate(t) && SeparateAll([t])
  {
    assert [t][1..] == [];
  }

  /** Hiding a tag between two texts breaks it. */
  lemma {:induction false} HideBreaksSeparate(a: string, b: string, t: Tree)
    requires t.Tag? && Separate(t)
    ensures SeparateAll([Text(a), t, Text(b)]) && !SeparateAll(Drop([Text(a), t, Text(b)], 1))
  {
    hide Separate; hide SeparateAll;
    var x, y := Text(a), Text(b);
    OneSeparate(x);
    OneSeparate(y);
    SeparateLast([x], t);
    SeparateLast([x, t], y);
    SeparateLast([x], y);
    assert [x] + [t] == [x, t] && [x, t] + [y] == [x, t, y] && Drop([x, t, y], 1) == [x] + [y];
  }

  lemma {:induction false} MergedSeparate(t: Tree)
    ensures Separate(Merged(t)) && Merged(t).Text? == t.Text?
    decreases t, 0
  {
    if t.Tag? {
      PutAllKeepsUnique([], t.atts);
      AllSeparate([], t.kids);
    }
  }

  lemma {:induction false} AllSeparate(done: seq<Tree>, l: seq<Tree>)
    requires SeparateAll(done)
    ensures SeparateAll(AddAll(done, l))
    decreases l, 0
  {
    hide Merged; hide SeparateAll; hide Separate;
    if l != [] {
      var next := if l[0].Text? then AddText(done, l[0].data) else done + [Merged(l[0])];
      if l[0].Text? {
        InsertsKeepSeparate(done, l[0].data, "");
      } else {
        MergedSeparate(l[0]);
        SeparateLast(done, Merged(l[0]));
      }
      AllSeparate(next, l[1..]);
    }
  }

  lemma {:induction false} AddAllSeparate(done: seq<Tree>, l: seq<Tree>)
    requires SeparateAll(l) && (done != [] && l != [] ==> !(done[|done| - 1].Text? && l[0].Text?))
    ensures AddAll(done, l) == done + l
    decreases l, 0
  {
    hide Merged; hide Separate;
    if l == [] {
      assert done + l == done;
    } else {
      MergedSame(l[0]);
      AddAllSeparate(done + [l[0]], l[1..]);
      assert done + [l[0]] + l[1..] == done + l;
      if l[0].Text? { assert AddText(done, l[0].data) == done + [l[0]]; }
    }
  }

  /** A copy is equal to the original exactly when no two texts are neighbours and no attribute name comes twice. */
  lemma {:induction false} MergedSame(t: Tree)
    ensures Merged(t) == t <==> Separate(t)
    decreases t, 1
  {
    MergedSeparate(t);
    if Separate(t) && t.Tag? {
      assert [] + t.atts == t.atts && [] + t.kids == t.kids;
      PutUnique([], t.atts);
      AddAllSeparate([], t.kids);
    }
  }

  // ---- Copying ----

  /** Growth at `c` puts nothing else above it. */
  lemma {:induction false} ReachesSame(v: Nodes, w: Nodes, b: nat, c: nat)
    requires Grown(v, w, c) && b < |v.nodes|
    ensures Reaches(w, b, c) == Reaches(v, b, c)
    decreases |v.nodes| - b
  {
    KidsInRange(v, b);
    KidsInRange(w, b);
    if b != c {
      assert v.kids[b] == w.kids[b] by {
        if v.nodes[b].kind == TagNode {
          assert SameAt(v, w, b);
        } else {
          assert OkAt(v, b) && OkAt(w, b) && KeptAt(v, w, c, b);
        }
      }
      forall m | 0 <= m < |v.kids[b]| ensures Reaches(w, v.kids[b][m], c) == Reaches(v, v.kids[b][m], c) { ReachesSame(v, w, v.kids[b][m], c); }
    }
  }

  lemma {:induction false} ListsKept(v: Nodes, w: Nodes, c: nat, o: nat)
    requires Grown(v, w, c) && o < |v.nodes| && o != c && v.nodes[o].kind == TagNode
    ensures w.kids[o] == v.kids[o] && w.atts[o] == v.atts[o] && AttPairs(w, o) == AttPairs(v, o) && w.nodes[o].kind == TagNode && w.nodes[o].name == v.nodes[o].name
  {
    assert SameAt(v, w, o);
  }

  /** The source of a copy and its list: neither is touched while the copy grows at `c`. */
  ghost predicate Source(v: Nodes, w: Nodes, c: nat, o: nat, t: Tree)
  {
    && Grown(v, w, c) && o < |v.nodes| && v.nodes[o].kind == TagNode && !Reaches(v, o, c) && TreeOf(v, o) == t
  }

  lemma {:induction false} SourceKid(v: Nodes, w: Nodes, c: nat, o: nat, t: Tree, n: nat)
    requires Source(v, w, c, o, t) && n < |v.kids[o]|
    ensures w.kids[o] == v.kids[o] && v.kids[o][n] < |v.nodes| && v.nodes[v.kids[o][n]].kind != AttribNode && w.nodes[v.kids[o][n]].kind == v.nodes[v.kids[o][n]].kind
    ensures var k := v.kids[o][n];
            && k < |w.nodes| && t.Tag? && n < |t.kids| && TreeOf(w, k) == t.kids[n] && !Reaches(v, k, c) && !Reaches(w, k, c)
            && w.nodes[k].next == (if n + 1 < |w.kids[o]| then Some(w.kids[o][n + 1]) else None)
  {
    ListsKept(v, w, c, o);
    KidFacts(v, o, n);
    KidFacts(w, o, n);
    KidsInRange(v, o);
    TreesAt(v, o, v.kids[o], n);
    var k := v.kids[o][n];
    ApartDown(v, o, c);
    ReachesSame(v, w, k, c);
    GrownTree(v, w, c, k);
  }

  lemma {:induction false} SourceAtt(v: Nodes, w: Nodes, c: nat, o: nat, t: Tree, n: nat)
    requires Source(v, w, c, o, t) && n < |v.atts[o]|
    ensures w.atts[o] == v.atts[o] && v.atts[o][n] < |v.nodes| && w.nodes[v.atts[o][n]].kind == AttribNode
    ensures var k := v.atts[o][n];
            && k < |w.nodes| && t.Tag? && n < |t.atts| && t.atts[n] == (w.nodes[k].name, w.nodes[k].data)
            && w.nodes[k].next == (if n + 1 < |w.atts[o]| then Some(w.atts[o][n + 1]) else None)
  {
    ListsKept(v, w, c, o);
    AttFacts(w, o, n);
    AttFacts(v, o, n);
    KidsInRange(v, o);
    assert t.atts == AttPairs(v, o) == AttPairs(w, o);
  }

  lemma {:induction false} SourceSizes(v: Nodes, w: Nodes, c: nat, o: nat, t: Tree)
    requires Source(v, w, c, o, t)
    ensures w.kids[o] == v.kids[o] && w.atts[o] == v.atts[o] && t.Tag? && |t.kids| == |v.kids[o]| && |t.atts| == |v.atts[o]|
  {
    ListsKept(v, w, c, o);
    KidsInRange(v, o);
  }

  lemma {:induction false} GrownNothing(v: Nodes, c: nat)
    requires Ok(v) && c < |v.nodes|
    ensures Grown(v, v, c)
  {
    forall i | 0 <= i < |v.nodes| && v.nodes[i].kind != AttribNode ensures SameAt(v, v, i) { }
  }

  /** xmlnode_insert_node on the attributes of `o`, from the `from`-th on. */
  method InsertAtts(d: Dom, parent: nat, first: Option<nat>, ghost o: nat, ghost from: nat, ghost t: Tree)
    requires d.Valid() && parent < |d.nodes| && o < |d.nodes| && d.nodes[parent].kind == TagNode && d.nodes[o].kind == TagNode
    requires !Reaches(d.View(), o, parent) && t == TreeOf(d.View(), o)
    requires from <= |d.atts[o]| && first == if from < |d.atts[o]| then Some(d.atts[o][from]) else None
    modifies d
    ensures d.Valid() && Grown(old(d.View()), d.View(), parent) && t.Tag? && from <= |t.atts|
    ensures AttPairs(d.View(), parent) == PutAtts(AttPairs(old(d.View()), parent), t.atts[from..])
    ensures KidTrees(d.View(), parent) == KidTrees(old(d.View()), parent)
  {
    hide *;
    ghost var v := d.View();
    ghost var n := from;
    ViewOf(d);
    GrownNothing(v, parent);
    assert Source(v, d.View(), parent, o, t) by { SourceHere(v, parent, o, t); }
    SourceSizes(v, d.View(), parent, o, t);
    var node := first;
    while node.Some?
      invariant d.Valid() && Source(v, d.View(), parent, o, t) && parent < |d.nodes| && d.nodes[parent].kind == TagNode
      invariant Ok(d.View()) && d.View() == Nodes(d.nodes, d.kids, d.atts, d.owner)
      invariant from <= n <= |v.atts[o]| == |t.atts| && t.Tag? && node == (if n < |v.atts[o]| then Some(v.atts[o][n]) else None)
      invariant PutAtts(AttPairs(v, parent), t.atts[from..]) == PutAtts(AttPairs(d.View(), parent), t.atts[n..])
      invariant KidTrees(d.View(), parent) == KidTrees(v, parent)
      decreases |t.atts| - n
    {
      ghost var w := d.View();
      ViewOf(d);
      SourceAtt(v, w, parent, o, t, n);
      var k := node.value;
      d.PutAttrib(parent, d.nodes[k].name, d.nodes[k].data);
      ViewOf(d);
      assert Source(v, d.View(), parent, o, t) && d.nodes[parent].kind == TagNode by { SourceGrows(v, w, d.View(), parent, parent, o, t); }
      SourceAtt(v, d.View(), parent, o, t, n);
      PutNext(AttPairs(w, parent), t.atts, n);
      node := d.nodes[k].next;
      n := n + 1;
      SourceSizes(v, d.View(), parent, o, t);
    }
    assert t.atts[n..] == [];
    PutNone(AttPairs(d.View(), parent));
    SourceIs(v, d.View(), parent, o, t);
  }

  lemma {:induction false} ViewOf(d: Dom)
    requires d.Valid()
    ensures Ok(d.View()) && d.View() == Nodes(d.nodes, d.kids, d.atts, d.owner) && |d.nodes| == |d.kids| == |d.atts| == |d.owner|
  {
  }

  lemma {:induction false} SourceHere(v: Nodes, c: nat, o: nat, t: Tree)
    requires Grown(v, v, c) && o < |v.nodes| && v.nodes[o].kind == TagNode && Ok(v) && c < |v.nodes| && !Reaches(v, o, c) && t == TreeOf(v, o)
    ensures Source(v, v, c, o, t)
  {
  }

  lemma {:induction false} SourceIs(v: Nodes, w: Nodes, c: nat, o: nat, t: Tree)
    requires Source(v, w, c, o, t)
    ensures Grown(v, w, c)
  {
  }

  lemma {:induction false} SourceGrows(v: Nodes, w: Nodes, x: Nodes, c: nat, c': nat, o: nat, t: Tree)
    requires Source(v, w, c, o, t) && Grown(w, x, c') && (c' == c || c' >= |v.nodes|)
    ensures Source(v, x, c, o, t) && c < |x.nodes| && x.nodes[c].kind == w.nodes[c].kind
  {
    assert KeptAt(w, x, c', c);
    GrownTwice(v, w, x, c, c');
  }

  lemma {:induction false} PutNext(done: seq<(string, string)>, l: seq<(string, string)>, n: nat)
    requires n < |l|
    ensures PutAtts(done, l[n..]) == PutAtts(PutAtt(done, l[n].0, l[n].1), l[n + 1..])
  {
    assert l[n..][0] == l[n] && l[n..][1..] == l[n + 1..];
  }

  lemma {:induction false} PutNone(done: seq<(string, string)>)
    ensures PutAtts(done, []) == done
  {
  }

  lemma {:induction false} AddNext(done: seq<Tree>, l: seq<Tree>, n: nat)
    requires n < |l|
    ensures AddAll(done, l[n..]) == AddAll(if l[n].Text? then AddText(done, l[n].data) else done + [Merged(l[n])], l[n + 1..])
  {
    assert l[n..][0] == l[n] && l[n..][1..] == l[n + 1..];
  }

  lemma {:induction false} AddNone(done: seq<Tree>)
    ensures AddAll(done, []) == done
  {
  }

  /** xmlnode_insert_node on the children of `o`, from the `from`-th on. */
  method InsertKids(d: Dom, parent: nat, first: Option<nat>, ghost o: nat, ghost from: nat, ghost t: Tree)
    requires d.Valid() && parent < |d.nodes| && o < |d.nodes| && d.nodes[parent].kind == TagNode && d.nodes[o].kind == TagNode
    requires !Reaches(d.View(), o, parent) && t == TreeOf(d.View(), o)
    requires from <= |d.kids[o]| && first == if from < |d.kids[o]| then Some(d.kids[o][from]) else None
    modifies d
    ensures d.Valid() && Grown(old(d.View()), d.View(), parent) && t.Tag? && from <= |t.kids|
    ensures KidTrees(d.View(), parent) == AddAll(KidTrees(old(d.View()), parent), t.kids[from..])
    ensures AttPairs(d.View(), parent) == AttPairs(old(d.View()), parent)
    decreases t, 0
  {
    hide *;
    ghost var v := d.View();
    ghost var n := from;
    ViewOf(d);
    GrownNothing(v, parent);
    assert Source(v, d.View(), parent, o, t) by { SourceHere(v, parent, o, t); }
    SourceSizes(v, d.View(), parent, o, t);
    var node := first;
    while node.Some?
      invariant d.Valid() && Source(v, d.View(), parent, o, t) && parent < |d.nodes| && d.nodes[parent].kind == TagNode
      invariant Ok(d.View()) && d.View() == Nodes(d.nodes, d.kids, d.atts, d.owner)
      invariant from <= n <= |v.kids[o]| == |t.kids| && t.Tag? && node == (if n < |v.kids[o]| then Some(v.kids[o][n]) else None)
      invariant AddAll(KidTrees(v, parent), t.kids[from..]) == AddAll(KidTrees(d.View(), parent), t.kids[n..])
      invariant AttPairs(d.View(), parent) == AttPairs(v, parent)
      decreases |t.kids| - n
    {
      ghost var w := d.View();
      ViewOf(d);
      SourceKid(v, w, parent, o, t, n);
      var k := node.value;
      AddNext(KidTrees(w, parent), t.kids, n);
      KindOfTree(w, k, t.kids[n]);
      if d.nodes[k].kind == TagNode {
        InsertTagNode(d, parent, k, t.kids[n]);
      } else {
        var _ := d.InsertCdata(parent, d.nodes[k].data);
      }
      ViewOf(d);
      assert Source(v, d.View(), parent, o, t) && d.nodes[parent].kind == TagNode by { SourceGrows(v, w, d.View(), parent, parent, o, t); }
      SourceKid(v, d.View(), parent, o, t, n);
      node := d.nodes[k].next;
      n := n + 1;
      SourceSizes(v, d.View(), parent, o, t);
    }
    assert t.kids[n..] == [];
    AddNone(KidTrees(d.View(), parent));
    SourceIs(v, d.View(), parent, o, t);
  }

  lemma {:induction false} KindOfTree(w: Nodes, k: nat, t: Tree)
    requires Ok(w) && k < |w.nodes| && w.nodes[k].kind != AttribNode && TreeOf(w, k) == t
    ensures t.Tag? <==> w.nodes[k].kind == TagNode
    ensures t.Text? ==> t.data == w.nodes[k].data
    ensures t.Tag? ==> t.name == w.nodes[k].name
  {
  }

  /** The new tag is there, and the source is as it was. */
  lemma {:induction false} TagInserted(v: Nodes, parent: nat, name: string, node: nat, t: Tree)
    requires Ok(v) && parent < |v.nodes| && node < |v.nodes| && v.nodes[parent].kind == TagNode && v.nodes[node].kind == TagNode
    requires !Reaches(v, node, parent) && t == TreeOf(v, node)
    ensures forall m :: 0 <= m < |v.kids[parent]| ==> v.kids[parent][m] < |v.nodes|
    ensures var k := |v.nodes|; var w := Appended(v, parent, TagNode, name, "");
            && Grown(v, w, parent) && k < |w.nodes| == |w.kids| == |w.owner| && w.nodes[k].kind == TagNode && w.nodes[k].name == name && w.owner[k] == parent
            && AttPairs(w, k) == [] && KidTrees(w, k) == [] && w.kids[parent] == v.kids[parent] + [k]
            && AttPairs(w, parent) == AttPairs(v, parent)
            && w.nodes[node].kind == TagNode && TreeOf(w, node) == t && !Reaches(w, node, k)
  {
    AppendedKid(v, parent, TagNode, name, "");
    var k := |v.nodes|;
    var w := Appended(v, parent, TagNode, name, "");
    AppendedAt(v, parent, TagNode, name, "", k);
    AppendedKept(v, parent, TagNode, name, "");
    ChangedGrown(v, w, parent);
    GrownTree(v, w, parent, node);
    ReachesSame(v, w, node, parent);
    if Reaches(w, node, k) { ReachesOwner(w, node, k); }
  }

  /** The source is still as it was after the new tag has grown. */
  lemma {:induction false} SourceStays(v: Nodes, w: Nodes, k: nat, node: nat, t: Tree)
    requires Grown(v, w, k) && node < |v.nodes| && v.nodes[node].kind == TagNode && !Reaches(v, node, k) && t == TreeOf(v, node)
    ensures node < |w.nodes| && k < |w.nodes| && w.nodes[node].kind == TagNode && t == TreeOf(w, node) && !Reaches(w, node, k) && w.nodes[k].kind == v.nodes[k].kind
  {
    assert KeptAt(v, w, k, node) && KeptAt(v, w, k, k);
    GrownTree(v, w, k, node);
    ReachesSame(v, w, node, k);
  }

  /** Nothing behind the owner of a node reaches the node, but itself. */
  lemma {:induction false} OwnerApart(v: Nodes, b: nat, k: nat)
    requires Ok(v) && b < |v.nodes| && k < |v.nodes| && v.owner[k] < b != k
    ensures !Reaches(v, b, k)
  {
    if Reaches(v, b, k) {
      ReachesOwner(v, b, k);
      ReachesHolds(v, b, v.owner[k]);
      HoldsOlder(v, b, v.owner[k]);
    }
  }

  /** The children in front of the new tag are apart from it. */
  lemma {:induction false} KidsApart(v: Nodes, v1: Nodes, parent: nat)
    requires Grown(v, v1, parent) && |v.nodes| < |v1.nodes| && v1.owner[|v.nodes|] == parent && v1.kids[parent] == v.kids[parent] + [|v.nodes|]
    ensures var k := |v.nodes|; Above(v1, parent, v.kids[parent]) && forall m :: 0 <= m < |v.kids[parent]| ==> !Reaches(v1, v.kids[parent][m], k) && !IsTextOf(v1, v.kids[parent][m], k)
  {
    var k, l := |v.nodes|, v.kids[parent];
    KidsBelow(v1, parent);
    forall m | 0 <= m < |l| ensures parent < l[m] < |v1.nodes| && v1.nodes[l[m]].kind != AttribNode && !Reaches(v1, l[m], k) && !IsTextOf(v1, l[m], k) {
      assert v1.kids[parent][m] == l[m];
      KidFacts(v, parent, m);
      KidFacts(v1, parent, m);
      OwnerApart(v1, l[m], k);
    }
  }

  lemma {:induction false} LastTree(v: Nodes, low: nat, l: seq<nat>, k: nat)
    requires Ok(v) && low < |v.nodes| && Above(v, low, l) && low < k < |v.nodes| && v.nodes[k].kind != AttribNode
    ensures Above(v, low, l + [k]) && TreesOf(v, low, l + [k]) == TreesOf(v, low, l) + [TreeOf(v, k)]
  {
    assert (l + [k])[..|l|] == l;
  }

  lemma {:induction false} KidTreesAre(v: Nodes, i: nat)
    requires Ok(v) && i < |v.nodes|
    ensures Above(v, i, v.kids[i]) && KidTrees(v, i) == TreesOf(v, i, v.kids[i])
  {
    KidsInRange(v, i);
  }

  lemma {:induction false} SameFront<T>(a: seq<T>, b: seq<T>, x: T, y: T)
    requires a + [x] == b + [y]
    ensures a == b
  {
    assert (a + [x])[..|a|] == a && (b + [y])[..|b|] == b;
    assert |a + [x]| == |b + [y]|;
  }

  /** The new tag has grown to the copy. */
  lemma {:induction false} TagCopied(v: Nodes, v1: Nodes, w: Nodes, parent: nat, t: Tree)
    requires Grown(v, v1, parent) && Grown(v1, w, |v.nodes|) && v.nodes[parent].kind == TagNode && t.Tag?
    requires var k := |v.nodes|;
             && v1.owner[k] == parent && v1.nodes[k].kind == TagNode && v1.nodes[k].name == t.name && v1.kids[parent] == v.kids[parent] + [k]
             && AttPairs(v1, parent) == AttPairs(v, parent) && KidTrees(v1, parent) == KidTrees(v, parent) + [Tree.Tag(t.name, [], [])]
             && AttPairs(w, k) == PutAtts([], t.atts) && KidTrees(w, k) == AddAll([], t.kids)
    ensures Grown(v, w, parent) && AttPairs(w, parent) == AttPairs(v, parent) && KidTrees(w, parent) == KidTrees(v, parent) + [Merged(t)]
  {
    hide TreesOf; hide TreeOf; hide KidTrees; hide AttPairs; hide Reaches; hide SameAt; hide Above; hide IsTextOf; hide Merged;
    var k, l := |v.nodes|, v.kids[parent];
    GrownTwice(v, v1, w, parent, k);
    assert KeptAt(v, v1, parent, parent);
    ListsKept(v1, w, k, parent);
    KidsApart(v, v1, parent);
    GrownTrees(v1, w, k, parent, l);
    assert parent < k by { assert OkAt(v1, k); }
    CopyIsMerged(v1, w, k, t);
    KidTreesAre(v1, parent);
    KidTreesAre(w, parent);
    LastTree(v1, parent, l, k);
    LastTree(w, parent, l, k);
    SameFront(KidTrees(v, parent), TreesOf(v1, parent, l), Tree.Tag(t.name, [], []), TreeOf(v1, k));
  }

  lemma {:induction false} NewTagKids(v: Nodes, parent: nat, name: string)
    requires Ok(v) && parent < |v.nodes| && v.nodes[parent].kind == TagNode
    ensures forall m :: 0 <= m < |v.kids[parent]| ==> v.kids[parent][m] < |v.nodes|
    ensures var w := Appended(v, parent, TagNode, name, ""); Ok(w) && parent < |w.nodes| && KidTrees(w, parent) == KidTrees(v, parent) + [Tree.Tag(name, [], [])]
  {
    AppendedKid(v, parent, TagNode, name, "");
  }

  lemma {:induction false} ListOf<T>(l: seq<T>)
    ensures l[0..] == l
  {
  }

  lemma {:induction false} FirstOf(l: seq<nat>)
    ensures First(l) == if 0 < |l| then Some(l[0]) else None
  {
  }

  lemma {:induction false} SizesOf(v: Nodes, o: nat, t: Tree)
    requires Ok(v) && o < |v.nodes| && v.nodes[o].kind == TagNode && t == TreeOf(v, o)
    ensures t.Tag? && |t.kids| == |v.kids[o]| && |t.atts| == |v.atts[o]|
  {
    KidsInRange(v, o);
  }

  /** xmlnode_insert_tag_node. */
  method InsertTagNode(d: Dom, parent: nat, node: nat, ghost t: Tree)
    requires d.Valid() && parent < |d.nodes| && node < |d.nodes| && d.nodes[parent].kind == TagNode && d.nodes[node].kind == TagNode
    requires !Reaches(d.View(), node, parent) && t == TreeOf(d.View(), node)
    modifies d
    ensures d.Valid() && Grown(old(d.View()), d.View(), parent)
    ensures KidTrees(d.View(), parent) == KidTrees(old(d.View()), parent) + [Merged(t)]
    ensures AttPairs(d.View(), parent) == AttPairs(old(d.View()), parent)
    decreases t, 1
  {
    hide *;
    ghost var v := d.View();
    ViewOf(d);
    KindOfTree(v, node, t);
    TagInserted(v, parent, t.name, node, t);
    NewTagKids(v, parent, t.name);
    var child := d.Insert(parent, d.nodes[node].name, TagNode, "");
    ghost var v1 := d.View();
    ViewOf(d);
    CopyInto(d, child, node, t);
    TagCopied(v, v1, d.View(), parent, t);
  }

  /** What xmlnode_insert_tag_node and xmlnode_dup do to a new tag: the attributes, then the children. */
  method CopyInto(d: Dom, child: nat, node: nat, ghost t: Tree)
    requires d.Valid() && child < |d.nodes| && node < |d.nodes| && d.nodes[child].kind == TagNode && d.nodes[node].kind == TagNode
    requires !Reaches(d.View(), node, child) && t == TreeOf(d.View(), node)
    requires AttPairs(d.View(), child) == [] && KidTrees(d.View(), child) == []
    modifies d
    ensures d.Valid() && Grown(old(d.View()), d.View(), child) && t.Tag?
    ensures AttPairs(d.View(), child) == PutAtts([], t.atts) && KidTrees(d.View(), child) == AddAll([], t.kids)
    decreases t, 1, 0
  {
    hide *;
    ghost var v := d.View();
    ViewOf(d);
    SizesOf(v, node, t);
    EndFacts(v, node);
    FirstOf(v.atts[node]);
    ListOf(t.atts);
    ListOf(t.kids);
    PutNone([]);
    AddNone([]);
    GrownNothing(v, child);
    if d.nodes[node].firstattrib.Some? { InsertAtts(d, child, d.nodes[node].firstattrib, node, 0, t); }
    ghost var w := d.View();
    ViewOf(d);
    SourceStays(v, w, child, node, t);
    SizesOf(w, node, t);
    EndFacts(w, node);
    FirstOf(w.kids[node]);
    GrownNothing(w, child);
    if d.nodes[node].firstchild.Some? { InsertKids(d, child, d.nodes[node].firstchild, node, 0, t); }
    GrownTwice(v, w, d.View(), child, child);
  }

  // ---- xmlnode_dup ----

  lemma {:induction false} RootedTree(v: Nodes, w: Nodes, i: nat)
    requires Ok(v) && Ok(w) && |v.nodes| <= |w.nodes| && i < |v.nodes| && v.nodes[i].kind != AttribNode
    requires forall j :: 0 <= j < |v.nodes| && v.nodes[j].kind != AttribNode ==> SameAt(v, w, j)
    ensures w.nodes[i].kind == v.nodes[i].kind && TreeOf(w, i) == TreeOf(v, i)
    decreases |v.nodes| - i, 1, 0
  {
    assert SameAt(v, w, i);
    KidsInRange(v, i);
    KidsInRange(w, i);
    RootedTrees(v, w, i, v.kids[i]);
  }

  lemma {:induction false} RootedTrees(v: Nodes, w: Nodes, low: nat, l: seq<nat>)
    requires Ok(v) && Ok(w) && |v.nodes| <= |w.nodes| && low < |v.nodes| && Above(v, low, l)
    requires forall j :: 0 <= j < |v.nodes| && v.nodes[j].kind != AttribNode ==> SameAt(v, w, j)
    ensures Above(w, low, l) && TreesOf(w, low, l) == TreesOf(v, low, l)
    decreases |v.nodes| - low, 0, |l|
  {
    forall m | 0 <= m < |l| ensures w.nodes[l[m]].kind == v.nodes[l[m]].kind { assert SameAt(v, w, l[m]); }
    if l != [] {
      RootedTrees(v, w, low, l[..|l| - 1]);
      RootedTree(v, w, l[|l| - 1]);
    }
  }

  lemma {:induction false} RootReachesItself(v: Nodes, b: nat, k: nat)
    requires Ok(v) && k < |v.nodes| && v.owner[k] == -1
    requires b < |v.nodes|
    ensures Reaches(v, b, k) <==> b == k
  {
    if b != k && Reaches(v, b, k) { ReachesOwner(v, b, k); }
  }

  lemma {:induction false} RootFacts(v: Nodes, name: string)
    requires Ok(v)
    ensures var w := Rooted(v, name); var k := |v.nodes|;
            Ok(w) && |w.nodes| == k + 1 && w.nodes[k].kind == TagNode && w.nodes[k].name == name && w.nodes[k].next == None && w.owner[k] == -1
            && (forall i :: 0 <= i < |v.nodes| ==> w.nodes[i] == v.nodes[i])
  {
    RootedOk(v, name);
  }

  /** xmlnode_dup: the copy is the merged original, and every tree there was is what it was. */
  method Dup(d: Dom, x: nat) returns (k: nat)
    requires d.Valid() && x < |d.nodes| && d.nodes[x].kind == TagNode
    modifies d
    ensures d.Valid() && |old(d.nodes)| == k < |d.nodes| && d.nodes[k].kind == TagNode && d.nodes[k].next == None
    ensures TreeOf(d.View(), k) == Merged(TreeOf(old(d.View()), x))
    ensures forall i :: 0 <= i < |old(d.nodes)| && old(d.nodes)[i].kind != AttribNode ==>
              d.nodes[i].kind != AttribNode && TreeOf(d.View(), i) == TreeOf(old(d.View()), i)
    ensures forall i :: 0 <= i < |old(d.nodes)| ==> d.nodes[i].kind == old(d.nodes)[i].kind && d.nodes[i].next == old(d.nodes)[i].next
  {
    hide *;
    ghost var v := d.View();
    ViewOf(d);
    ghost var t := TreeOf(v, x);
    KindOfTree(v, x, t);
    RootFacts(v, d.nodes[x].name);
    RootedOk(v, d.nodes[x].name);
    k := d.NewTag(d.nodes[x].name);
    ghost var v1 := d.View();
    ViewOf(d);
    RootedTree(v, v1, x);
    RootReachesItself(v1, x, k);
    CopyInto(d, k, x, t);
    ghost var w := d.View();
    ViewOf(d);
    CopyIsMerged(v1, w, k, t);
    OldNode(v1, w, k, k);
    forall i | 0 <= i < |v.nodes| && v.nodes[i].kind != AttribNode ensures w.nodes[i].kind != AttribNode && TreeOf(w, i) == TreeOf(v, i) {
      RootedTree(v, v1, i);
      RootReachesItself(v1, i, k);
      OldTree(v1, w, k, i);
    }
    forall i | 0 <= i < |v.nodes| ensures w.nodes[i].kind == v.nodes[i].kind && w.nodes[i].next == v.nodes[i].next { OldNode(v1, w, k, i); }
  }

  lemma {:induction false} OldNode(v: Nodes, w: Nodes, k: nat, i: nat)
    requires Grown(v, w, k) && i <= k
    ensures i < |w.nodes| && w.nodes[i].kind == v.nodes[i].kind && w.nodes[i].next == v.nodes[i].next
  {
    assert OkAt(v, i) && KeptAt(v, w, k, i);
  }

  lemma {:induction false} OldTree(v: Nodes, w: Nodes, k: nat, i: nat)
    requires Grown(v, w, k) && i < k && v.nodes[i].kind != AttribNode && !Reaches(v, i, k)
    ensures i < |w.nodes| && w.nodes[i].kind == v.nodes[i].kind && TreeOf(w, i) == TreeOf(v, i)
  {
    assert OkAt(v, i);
    GrownTree(v, w, k, i);
  }

  lemma {:induction false} CopyIsMerged(v: Nodes, w: Nodes, k: nat, t: Tree)
    requires Grown(v, w, k) && t.Tag? && v.nodes[k].kind == TagNode && v.nodes[k].name == t.name
    requires AttPairs(w, k) == PutAtts([], t.atts) && KidTrees(w, k) == AddAll([], t.kids)
    ensures k < |w.nodes| && w.nodes[k].kind == TagNode && TreeOf(w, k) == Merged(t)
  {
    assert KeptAt(v, w, k, k);
    KidsInRange(w, k);
  }
}
