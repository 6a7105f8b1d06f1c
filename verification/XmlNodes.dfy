/**
 The node records of libjabber/xmlnode.c and what they stand for.

 All nodes live in one table, as they do in a memory pool, and a pointer is a
 position in it.  `Ok` ties the `firstchild`/`lastchild`/`prev`/`next` links to
 the lists of children and attributes they make up; `TreeOf` is the tree at a
 node.
 */
module XmlNodes {
  import opened XmlValue
  import opened XmlTree

  datatype Kind = TagNode | AttribNode | CdataNode

  datatype Node = Node(
    kind: Kind, name: string, data: string,
    parent: Option<nat>, firstchild: Option<nat>, lastchild: Option<nat>,
    prev: Option<nat>, next: Option<nat>,
    firstattrib: Option<nat>, lastattrib: Option<nat>)

  /** The table, with the lists the links make up and, for every node in a list, the node it belongs to. */
  datatype Nodes = Nodes(nodes: seq<Node>, kids: seq<seq<nat>>, atts: seq<seq<nat>>, owner: seq<int>)

  function First(l: seq<nat>): Option<nat> { if l == [] then None else Some(l[0]) }

  function Last(l: seq<nat>): Option<nat> { if l == [] then None else Some(l[|l| - 1]) }

  ghost predicate Linked(nodes: seq<Node>, l: seq<nat>)
  {
    forall m :: 0 <= m < |l| ==> LinkedAt(nodes, l, m)
  }

  ghost predicate LinkedAt(nodes: seq<Node>, l: seq<nat>, m: nat)
    requires m < |l|
  {
    && l[m] < |nodes|
    && nodes[l[m]].prev == (if m == 0 then None else Some(l[m - 1]))
    && nodes[l[m]].next == (if m + 1 == |l| then None else Some(l[m + 1]))
    && (m + 1 < |l| ==> l[m] < l[m + 1])
  }

  ghost predicate KidsOk(v: Nodes, i: nat)
    requires i < |v.nodes| == |v.kids| == |v.owner|
  {
    && v.nodes[i].firstchild == First(v.kids[i]) && v.nodes[i].lastchild == Last(v.kids[i]) && Linked(v.nodes, v.kids[i])
    && forall m :: 0 <= m < |v.kids[i]| ==> KidOk(v, i, v.kids[i][m])
  }

  ghost predicate KidOk(v: Nodes, i: nat, k: nat)
    requires |v.nodes| == |v.owner|
  {
    k < |v.nodes| && v.owner[k] == i && v.nodes[k].parent == Some(i) && v.nodes[k].kind != AttribNode
  }

  ghost predicate AttsOk(v: Nodes, i: nat)
    requires i < |v.nodes| == |v.atts| == |v.owner|
  {
    && v.nodes[i].firstattrib == First(v.atts[i]) && v.nodes[i].lastattrib == Last(v.atts[i]) && Linked(v.nodes, v.atts[i])
    && forall m :: 0 <= m < |v.atts[i]| ==> AttOk(v, i, v.atts[i][m])
  }

  ghost predicate AttOk(v: Nodes, i: nat, k: nat)
    requires |v.nodes| == |v.owner|
  {
    k < |v.nodes| && v.owner[k] == i && v.nodes[k].kind == AttribNode
  }

  ghost predicate OkAt(v: Nodes, i: nat)
    requires i < |v.nodes| == |v.kids| == |v.atts| == |v.owner|
  {
    && -1 <= v.owner[i] < i
    && KidsOk(v, i) && AttsOk(v, i)
    && (v.nodes[i].kind != TagNode ==> v.kids[i] == [] && v.atts[i] == [])
  }

  ghost predicate Ok(v: Nodes)
  {
    && |v.nodes| == |v.kids| == |v.atts| == |v.owner|
    && forall i :: 0 <= i < |v.nodes| ==> OkAt(v, i)
  }

  lemma {:induction false} KidFacts(v: Nodes, i: nat, m: nat)
    requires Ok(v) && i < |v.nodes| && m < |v.kids[i]|
    ensures var k := v.kids[i][m]; i < k < |v.nodes| && v.owner[k] == i && v.nodes[k].kind != AttribNode && v.nodes[k].parent == Some(i)
    ensures v.nodes[v.kids[i][m]].next == if m + 1 == |v.kids[i]| then None else Some(v.kids[i][m + 1])
  {
    assert OkAt(v, i) && KidOk(v, i, v.kids[i][m]) && LinkedAt(v.nodes, v.kids[i], m);
    assert OkAt(v, v.kids[i][m]);
  }

  lemma {:induction false} AttFacts(v: Nodes, i: nat, m: nat)
    requires Ok(v) && i < |v.nodes| && m < |v.atts[i]|
    ensures var k := v.atts[i][m]; i < k < |v.nodes| && v.owner[k] == i && v.nodes[k].kind == AttribNode
    ensures v.nodes[v.atts[i][m]].next == if m + 1 == |v.atts[i]| then None else Some(v.atts[i][m + 1])
  {
    assert OkAt(v, i) && AttOk(v, i, v.atts[i][m]) && LinkedAt(v.nodes, v.atts[i], m);
    assert OkAt(v, v.atts[i][m]);
  }

  lemma {:induction false} EndFacts(v: Nodes, i: nat)
    requires Ok(v) && i < |v.nodes|
    ensures v.nodes[i].firstchild == First(v.kids[i]) && v.nodes[i].lastchild == Last(v.kids[i])
    ensures v.nodes[i].firstattrib == First(v.atts[i]) && v.nodes[i].lastattrib == Last(v.atts[i])
    ensures v.nodes[i].kind != TagNode ==> v.kids[i] == [] && v.atts[i] == []
  {
    assert OkAt(v, i);
  }

  // ---- Trees ----

  ghost function AttList(v: Nodes, l: seq<nat>): (r: seq<(string, string)>)
    requires forall m :: 0 <= m < |l| ==> l[m] < |v.nodes|
    ensures |r| == |l|
  {
    seq(|l|, m requires 0 <= m < |l| => (v.nodes[l[m]].name, v.nodes[l[m]].data))
  }

  ghost function TreeOf(v: Nodes, i: nat): (t: Tree)
    requires Ok(v) && i < |v.nodes| && v.nodes[i].kind != AttribNode
    decreases |v.nodes| - i, 1, 0
  {
    if v.nodes[i].kind == CdataNode then Text(v.nodes[i].data)
    else
      KidsInRange(v, i);
      Tag(v.nodes[i].name, AttList(v, v.atts[i]), TreesOf(v, i, v.kids[i]))
  }

  ghost predicate Above(v: Nodes, low: nat, l: seq<nat>)
  {
    forall m :: 0 <= m < |l| ==> low < l[m] < |v.nodes| && v.nodes[l[m]].kind != AttribNode
  }

  ghost function TreesOf(v: Nodes, low: nat, l: seq<nat>): (r: seq<Tree>)
    requires Ok(v) && low < |v.nodes| && Above(v, low, l)
    ensures |r| == |l|
    decreases |v.nodes| - low, 0, |l|
  {
    if l == [] then [] else TreesOf(v, low, l[..|l| - 1]) + [TreeOf(v, l[|l| - 1])]
  }

  lemma {:induction false} KidsInRange(v: Nodes, i: nat)
    requires Ok(v) && i < |v.nodes|
    ensures Above(v, i, v.kids[i]) && forall m :: 0 <= m < |v.atts[i]| ==> i < v.atts[i][m] < |v.nodes|
  {
    forall m | 0 <= m < |v.kids[i]| ensures i < v.kids[i][m] < |v.nodes| && v.nodes[v.kids[i][m]].kind != AttribNode { KidFacts(v, i, m); }
    forall m | 0 <= m < |v.atts[i]| ensures i < v.atts[i][m] < |v.nodes| { AttFacts(v, i, m); }
  }

  ghost function KidTrees(v: Nodes, i: nat): seq<Tree>
    requires Ok(v) && i < |v.nodes|
  {
    KidsInRange(v, i);
    TreesOf(v, i, v.kids[i])
  }

  ghost function AttPairs(v: Nodes, i: nat): seq<(string, string)>
    requires Ok(v) && i < |v.nodes|
  {
    KidsInRange(v, i);
    AttList(v, v.atts[i])
  }

  lemma {:induction false} TreesAt(v: Nodes, low: nat, l: seq<nat>, m: nat)
    requires Ok(v) && low < |v.nodes| && Above(v, low, l) && m < |l|
    ensures TreesOf(v, low, l)[m] == TreeOf(v, l[m])
    decreases |l|
  {
    if m < |l| - 1 { TreesAt(v, low, l[..|l| - 1], m); }
  }

  // ---- What a change leaves alone ----

  /** `b` is `c` or one of the nodes `c` belongs to. */
  ghost predicate Holds(v: Nodes, b: nat, c: nat)
    requires Ok(v) && c < |v.nodes|
    decreases c
  {
    b == c || (assert OkAt(v, c); v.owner[c] >= 0 && Holds(v, b, v.owner[c]))
  }

  lemma {:induction false} HoldsUp(v: Nodes, b: nat, k: nat, c: nat)
    requires Ok(v) && b < |v.nodes| && k < |v.nodes| && v.owner[k] == b && c < |v.nodes| && Holds(v, k, c)
    ensures Holds(v, b, c)
    decreases c
  {
    assert OkAt(v, c);
    if k != c { HoldsUp(v, b, k, v.owner[c]); }
  }

  lemma {:induction false} HoldsOlder(v: Nodes, b: nat, c: nat)
    requires Ok(v) && c < |v.nodes| && Holds(v, b, c)
    ensures b <= c
    decreases c
  {
    assert OkAt(v, c);
    if b != c { HoldsOlder(v, b, v.owner[c]); }
  }

  /** `c` is `b`, or is below it through the lists of children. */
  ghost predicate Reaches(v: Nodes, b: nat, c: nat)
    requires Ok(v) && b < |v.nodes|
    decreases |v.nodes| - b
  {
    KidsInRange(v, b);
    b == c || exists m :: 0 <= m < |v.kids[b]| && Reaches(v, v.kids[b][m], c)
  }

  lemma {:induction false} ReachesDown(v: Nodes, b: nat, m: nat, c: nat)
    requires Ok(v) && b < |v.nodes| && m < |v.kids[b]| && v.kids[b][m] < |v.nodes| && Reaches(v, v.kids[b][m], c)
    ensures Reaches(v, b, c)
  {
  }

  lemma {:induction false} ApartDown(v: Nodes, b: nat, c: nat)
    requires Ok(v) && b < |v.nodes| && !Reaches(v, b, c)
    ensures forall m :: 0 <= m < |v.kids[b]| ==> b < v.kids[b][m] < |v.nodes| && !Reaches(v, v.kids[b][m], c)
  {
    KidsInRange(v, b);
  }

  lemma {:induction false} ReachesHolds(v: Nodes, b: nat, c: nat)
    requires Ok(v) && b < |v.nodes| && c < |v.nodes| && Reaches(v, b, c)
    ensures Holds(v, b, c)
    decreases |v.nodes| - b
  {
    KidsInRange(v, b);
    if b != c {
      var m :| 0 <= m < |v.kids[b]| && Reaches(v, v.kids[b][m], c);
      KidFacts(v, b, m);
      ReachesHolds(v, v.kids[b][m], c);
      HoldsUp(v, b, v.kids[b][m], c);
    }
  }

  /** What is below `b` is in the list of something below `b`, its owner. */
  lemma {:induction false} ReachesOwner(v: Nodes, b: nat, c: nat)
    requires Ok(v) && b < |v.nodes| && c < |v.nodes| && Reaches(v, b, c) && b != c
    ensures 0 <= v.owner[c] && Reaches(v, b, v.owner[c])
    decreases |v.nodes| - b
  {
    KidsInRange(v, b);
    var m :| 0 <= m < |v.kids[b]| && Reaches(v, v.kids[b][m], c);
    KidFacts(v, b, m);
    if v.kids[b][m] != c {
      ReachesOwner(v, v.kids[b][m], c);
      ReachesDown(v, b, m, v.owner[c]);
    }
  }

  /** The record of a node, its lists and its attributes are the same in both tables. */
  ghost predicate SameAt(v: Nodes, w: Nodes, i: nat)
    requires Ok(v) && Ok(w) && i < |v.nodes| <= |w.nodes|
  {
    && v.nodes[i].kind == w.nodes[i].kind && v.nodes[i].name == w.nodes[i].name && v.nodes[i].data == w.nodes[i].data
    && v.kids[i] == w.kids[i] && v.atts[i] == w.atts[i] && AttPairs(v, i) == AttPairs(w, i)
  }

  /** All that changed is at `c`, and new nodes. */
  ghost predicate ChangedAt(v: Nodes, w: Nodes, c: nat)
  {
    && Ok(v) && Ok(w) && c < |v.nodes| <= |w.nodes|
    && (forall i :: 0 <= i < |v.nodes| && i != c && v.nodes[i].kind != AttribNode ==> SameAt(v, w, i))
    && (forall i :: 0 <= i < |v.nodes| ==> w.owner[i] == v.owner[i])
    && w.nodes[c].kind == v.nodes[c].kind
  }

  lemma {:induction false} TreeSame(v: Nodes, w: Nodes, c: nat, i: nat)
    requires ChangedAt(v, w, c) && i < |v.nodes| && v.nodes[i].kind != AttribNode && !Holds(v, i, c)
    ensures w.nodes[i].kind == v.nodes[i].kind && TreeOf(w, i) == TreeOf(v, i)
    decreases |v.nodes| - i, 1, 0
  {
    assert SameAt(v, w, i);
    if v.nodes[i].kind == TagNode {
      KidsInRange(v, i);
      KidsInRange(w, i);
      forall m | 0 <= m < |v.kids[i]| ensures !Holds(v, v.kids[i][m], c) {
        KidFacts(v, i, m);
        if Holds(v, v.kids[i][m], c) { HoldsUp(v, i, v.kids[i][m], c); }
      }
      TreesSame(v, w, c, i, v.kids[i]);
    }
  }

  lemma {:induction false} TreesSame(v: Nodes, w: Nodes, c: nat, low: nat, l: seq<nat>)
    requires ChangedAt(v, w, c) && low < |v.nodes| && Above(v, low, l)
    requires forall m :: 0 <= m < |l| ==> !Holds(v, l[m], c)
    ensures Above(w, low, l) && TreesOf(w, low, l) == TreesOf(v, low, l)
    decreases |v.nodes| - low, 0, |l|
  {
    if l != [] {
      TreesSame(v, w, c, low, l[..|l| - 1]);
      TreeSame(v, w, c, l[|l| - 1]);
    }
  }

  // ---- A node at the end of a list ----

  function Fresh(kind: Kind, name: string, data: string): Node
  {
    Node(kind, name, data, None, None, None, None, None, None, None)
  }

  /** The list a new node of that kind goes to. */
  function ListFor(v: Nodes, i: nat, kind: Kind): seq<nat>
    requires i < |v.nodes| == |v.kids| == |v.atts|
  {
    if kind == AttribNode then v.atts[i] else v.kids[i]
  }

  /** _xmlnode_append_sibling with _xmlnode_insert, or with xmlnode_put_attrib. */
  function Appended(v: Nodes, i: nat, kind: Kind, name: string, data: string): (w: Nodes)
    requires |v.nodes| == |v.kids| == |v.atts| == |v.owner| && i < |v.nodes|
    requires forall m :: 0 <= m < |ListFor(v, i, kind)| ==> ListFor(v, i, kind)[m] < |v.nodes|
  {
    var k, l := |v.nodes|, ListFor(v, i, kind);
    var node := Fresh(kind, name, data).(prev := Last(l), parent := if kind == AttribNode then None else Some(i));
    var nodes := v.nodes + [node];
    var behind := if l == [] then nodes else nodes[l[|l| - 1] := nodes[l[|l| - 1]].(next := Some(k))];
    var owner := behind[i];
    if kind == AttribNode then
      Nodes(behind[i := owner.(firstattrib := First(l + [k]), lastattrib := Some(k))], v.kids + [[]], v.atts[i := l + [k]] + [[]], v.owner + [i])
    else
      Nodes(behind[i := owner.(firstchild := First(l + [k]), lastchild := Some(k))], v.kids[i := l + [k]] + [[]], v.atts + [[]], v.owner + [i])
  }

  lemma {:induction false} ListFacts(v: Nodes, i: nat, kind: Kind)
    requires Ok(v) && i < |v.nodes|
    ensures var l := ListFor(v, i, kind);
            forall m :: 0 <= m < |l| ==> i < l[m] < |v.nodes| && v.owner[l[m]] == i && ((v.nodes[l[m]].kind == AttribNode) <==> (kind == AttribNode))
  {
    var l := ListFor(v, i, kind);
    forall m | 0 <= m < |l| ensures i < l[m] < |v.nodes| && v.owner[l[m]] == i && ((v.nodes[l[m]].kind == AttribNode) <==> (kind == AttribNode)) {
      if kind == AttribNode { AttFacts(v, i, m); } else { KidFacts(v, i, m); }
    }
  }

  /** What the new table holds, record by record. */
  lemma {:induction false} AppendedAt(v: Nodes, i: nat, kind: Kind, name: string, data: string, j: nat)
    requires Ok(v) && i < |v.nodes|
    ensures forall m :: 0 <= m < |ListFor(v, i, kind)| ==> ListFor(v, i, kind)[m] < |v.nodes|
    ensures var w := Appended(v, i, kind, name, data); var l := ListFor(v, i, kind);
            && |w.nodes| == |v.nodes| + 1
            && (j < |v.nodes| ==>
                  && w.nodes[j].kind == v.nodes[j].kind && w.nodes[j].name == v.nodes[j].name && w.nodes[j].data == v.nodes[j].data
                  && w.nodes[j].prev == v.nodes[j].prev && w.nodes[j].parent == v.nodes[j].parent
                  && w.nodes[j].next == (if l != [] && j == l[|l| - 1] then Some(|v.nodes|) else v.nodes[j].next)
                  && (j != i || kind == AttribNode ==> w.nodes[j].firstchild == v.nodes[j].firstchild && w.nodes[j].lastchild == v.nodes[j].lastchild)
                  && (j != i || kind != AttribNode ==> w.nodes[j].firstattrib == v.nodes[j].firstattrib && w.nodes[j].lastattrib == v.nodes[j].lastattrib))
            && w.nodes[|v.nodes|] == Fresh(kind, name, data).(prev := Last(l), parent := if kind == AttribNode then None else Some(i))
  {
    ListFacts(v, i, kind);
  }

  lemma {:induction false} OtherListLinked(v: Nodes, i: nat, kind: Kind, name: string, data: string, j: nat, kind': Kind)
    requires Ok(v) && i < |v.nodes| && j < |v.nodes| && (j != i || (kind == AttribNode) != (kind' == AttribNode))
    ensures forall m :: 0 <= m < |ListFor(v, i, kind)| ==> ListFor(v, i, kind)[m] < |v.nodes|
    ensures Linked(Appended(v, i, kind, name, data).nodes, ListFor(v, j, kind'))
  {
    hide Appended;
    ListFacts(v, i, kind);
    ListFacts(v, j, kind');
    var l := ListFor(v, j, kind');
    var w := Appended(v, i, kind, name, data);
    assert OkAt(v, j);
    forall m | 0 <= m < |l| ensures LinkedAt(w.nodes, l, m) {
      assert LinkedAt(v.nodes, l, m);
      AppendedAt(v, i, kind, name, data, l[m]);
    }
  }

  lemma {:induction false} OwnListLinked(v: Nodes, i: nat, kind: Kind, name: string, data: string)
    requires Ok(v) && i < |v.nodes|
    ensures forall m :: 0 <= m < |ListFor(v, i, kind)| ==> ListFor(v, i, kind)[m] < |v.nodes|
    ensures Linked(Appended(v, i, kind, name, data).nodes, ListFor(v, i, kind) + [|v.nodes|])
  {
    hide Appended;
    ListFacts(v, i, kind);
    var l := ListFor(v, i, kind);
    var l' := l + [|v.nodes|];
    var w := Appended(v, i, kind, name, data);
    assert OkAt(v, i);
    forall m | 0 <= m < |l'| ensures LinkedAt(w.nodes, l', m) {
      AppendedAt(v, i, kind, name, data, l'[m]);
      if m < |l| {
        assert LinkedAt(v.nodes, l, m);
        if m + 1 < |l| { Increasing(v.nodes, l, m); }
      }
    }
  }

  /** The last node of a list is in it once. */
  lemma {:induction false} Increasing(nodes: seq<Node>, l: seq<nat>, m: nat)
    requires Linked(nodes, l) && m + 1 < |l|
    ensures l[m] < l[|l| - 1]
    decreases |l| - m
  {
    assert LinkedAt(nodes, l, m);
    if m + 2 < |l| { Increasing(nodes, l, m + 1); }
  }

  lemma {:induction false} AppendedOkAt(v: Nodes, i: nat, kind: Kind, name: string, data: string, j: nat)
    requires Ok(v) && i < |v.nodes| && v.nodes[i].kind == TagNode && j <= |v.nodes|
    ensures forall m :: 0 <= m < |ListFor(v, i, kind)| ==> ListFor(v, i, kind)[m] < |v.nodes|
    ensures var w := Appended(v, i, kind, name, data); |w.nodes| == |w.kids| == |w.atts| == |w.owner| && OkAt(w, j)
  {
    ListFacts(v, i, kind);
    var w := Appended(v, i, kind, name, data);
    AppendedAt(v, i, kind, name, data, j);
    AppendedAt(v, i, kind, name, data, |v.nodes|);
    if j < |v.nodes| {
      assert OkAt(v, j);
      ListFacts(v, j, TagNode);
      ListFacts(v, j, AttribNode);
      forall m | 0 <= m < |w.kids[j]| ensures KidOk(w, j, w.kids[j][m]) {
        if m < |v.kids[j]| { KidFacts(v, j, m); AppendedAt(v, i, kind, name, data, v.kids[j][m]); }
      }
      forall m | 0 <= m < |w.atts[j]| ensures AttOk(w, j, w.atts[j][m]) {
        if m < |v.atts[j]| { AttFacts(v, j, m); AppendedAt(v, i, kind, name, data, v.atts[j][m]); }
      }
      OwnListLinked(v, i, kind, name, data);
      if j != i || kind == AttribNode { OtherListLinked(v, i, kind, name, data, j, TagNode); }
      if j != i || kind != AttribNode { OtherListLinked(v, i, kind, name, data, j, AttribNode); }
    }
  }

  lemma {:induction false} AppendedOk(v: Nodes, i: nat, kind: Kind, name: string, data: string)
    requires Ok(v) && i < |v.nodes| && v.nodes[i].kind == TagNode
    ensures forall m :: 0 <= m < |ListFor(v, i, kind)| ==> ListFor(v, i, kind)[m] < |v.nodes|
    ensures Ok(Appended(v, i, kind, name, data))
  {
    ListFacts(v, i, kind);
    var w := Appended(v, i, kind, name, data);
    AppendedOkAt(v, i, kind, name, data, 0);
    forall j | 0 <= j < |w.nodes| ensures OkAt(w, j) {
      AppendedOkAt(v, i, kind, name, data, j);
    }
  }

  lemma {:induction false} PairsSame(v: Nodes, w: Nodes, i: nat)
    requires Ok(v) && Ok(w) && i < |v.nodes| <= |w.nodes| && v.atts[i] == w.atts[i]
    requires forall m :: 0 <= m < |v.atts[i]| ==> var k := v.atts[i][m];
               k < |v.nodes| && w.nodes[k].name == v.nodes[k].name && w.nodes[k].data == v.nodes[k].data
    ensures AttPairs(v, i) == AttPairs(w, i)
  {
  }

  /** Appending to a list changes the node that has the list, and no other. */
  lemma {:induction false} AppendedChanged(v: Nodes, i: nat, kind: Kind, name: string, data: string)
    requires Ok(v) && i < |v.nodes| && v.nodes[i].kind == TagNode
    ensures forall m :: 0 <= m < |ListFor(v, i, kind)| ==> ListFor(v, i, kind)[m] < |v.nodes|
    ensures ChangedAt(v, Appended(v, i, kind, name, data), i)
  {
    AppendedOk(v, i, kind, name, data);
    var w := Appended(v, i, kind, name, data);
    AppendedAt(v, i, kind, name, data, i);
    forall j | 0 <= j < |v.nodes| && j != i && v.nodes[j].kind != AttribNode ensures SameAt(v, w, j) {
      AppendedAt(v, i, kind, name, data, j);
      forall m | 0 <= m < |v.atts[j]| ensures var k := v.atts[j][m]; k < |v.nodes| && w.nodes[k].name == v.nodes[k].name && w.nodes[k].data == v.nodes[k].data {
        AttFacts(v, j, m);
        AppendedAt(v, i, kind, name, data, v.atts[j][m]);
      }
      PairsSame(v, w, j);
    }
  }

  /** The children of `c` do not hold `c`. */
  lemma {:induction false} KidsBelow(v: Nodes, c: nat)
    requires Ok(v) && c < |v.nodes|
    ensures forall m :: 0 <= m < |v.kids[c]| ==> !Holds(v, v.kids[c][m], c)
  {
    forall m | 0 <= m < |v.kids[c]| ensures !Holds(v, v.kids[c][m], c) {
      KidFacts(v, c, m);
      if Holds(v, v.kids[c][m], c) { HoldsOlder(v, v.kids[c][m], c); }
    }
  }

  lemma {:induction false} AppendedKid(v: Nodes, i: nat, kind: Kind, name: string, data: string)
    requires Ok(v) && i < |v.nodes| && v.nodes[i].kind == TagNode && kind != AttribNode
    ensures forall m :: 0 <= m < |ListFor(v, i, kind)| ==> ListFor(v, i, kind)[m] < |v.nodes|
    ensures var w := Appended(v, i, kind, name, data);
            && ChangedAt(v, w, i) && w.nodes[i].name == v.nodes[i].name && AttPairs(w, i) == AttPairs(v, i)
            && KidTrees(w, i) == KidTrees(v, i) + [if kind == TagNode then Tag(name, [], []) else Text(data)]
            && KidTrees(w, |v.nodes|) == [] && AttPairs(w, |v.nodes|) == []
  {
    AppendedChanged(v, i, kind, name, data);
    var w := Appended(v, i, kind, name, data);
    AppendedAt(v, i, kind, name, data, i);
    AppendedAt(v, i, kind, name, data, |v.nodes|);
    forall m | 0 <= m < |v.atts[i]| ensures var k := v.atts[i][m]; k < |v.nodes| && w.nodes[k].name == v.nodes[k].name && w.nodes[k].data == v.nodes[k].data {
      AttFacts(v, i, m);
      AppendedAt(v, i, kind, name, data, v.atts[i][m]);
    }
    PairsSame(v, w, i);
    KidsInRange(v, i);
    KidsInRange(w, i);
    KidsBelow(v, i);
    TreesSame(v, w, i, i, v.kids[i]);
    assert w.kids[i] == v.kids[i] + [|v.nodes|] && w.kids[i][..|v.kids[i]|] == v.kids[i];
    EmptyNode(w, |v.nodes|);
  }

  /** A node with empty lists. */
  lemma {:induction false} EmptyNode(v: Nodes, i: nat)
    requires Ok(v) && i < |v.nodes| && v.nodes[i].kind != AttribNode && v.kids[i] == [] && v.atts[i] == []
    ensures KidTrees(v, i) == [] && AttPairs(v, i) == []
    ensures TreeOf(v, i) == if v.nodes[i].kind == TagNode then Tag(v.nodes[i].name, [], []) else Text(v.nodes[i].data)
  {
    KidsInRange(v, i);
  }

  lemma {:induction false} AppendedAtt(v: Nodes, i: nat, name: string, data: string)
    requires Ok(v) && i < |v.nodes| && v.nodes[i].kind == TagNode
    ensures forall m :: 0 <= m < |v.atts[i]| ==> v.atts[i][m] < |v.nodes|
    ensures var w := Appended(v, i, AttribNode, name, data);
            && ChangedAt(v, w, i) && w.nodes[i].name == v.nodes[i].name && KidTrees(w, i) == KidTrees(v, i)
            && AttPairs(w, i) == AttPairs(v, i) + [(name, data)]
  {
    AppendedChanged(v, i, AttribNode, name, data);
    var w := Appended(v, i, AttribNode, name, data);
    AppendedAt(v, i, AttribNode, name, data, i);
    AppendedAt(v, i, AttribNode, name, data, |v.nodes|);
    KidsInRange(v, i);
    KidsInRange(w, i);
    KidsBelow(v, i);
    TreesSame(v, w, i, i, v.kids[i]);
    forall m | 0 <= m < |v.atts[i]| ensures var k := v.atts[i][m]; w.nodes[k].name == v.nodes[k].name && w.nodes[k].data == v.nodes[k].data {
      AppendedAt(v, i, AttribNode, name, data, v.atts[i][m]);
    }
    assert w.atts[i] == v.atts[i] + [|v.nodes|];
  }

  // ---- Data in place ----

  function WithData(v: Nodes, k: nat, data: string): Nodes
    requires k < |v.nodes|
  {
    v.(nodes := v.nodes[k := v.nodes[k].(data := data)])
  }

  lemma {:induction false} WithDataOk(v: Nodes, k: nat, data: string)
    requires Ok(v) && k < |v.nodes|
    ensures Ok(WithData(v, k, data))
  {
    var w := WithData(v, k, data);
    forall j | 0 <= j < |w.nodes| ensures OkAt(w, j) {
      assert OkAt(v, j);
      forall m | 0 <= m < |w.kids[j]| ensures KidOk(w, j, w.kids[j][m]) && LinkedAt(w.nodes, w.kids[j], m) {
        KidFacts(v, j, m);
        assert LinkedAt(v.nodes, v.kids[j], m);
      }
      forall m | 0 <= m < |w.atts[j]| ensures AttOk(w, j, w.atts[j][m]) && LinkedAt(w.nodes, w.atts[j], m) {
        AttFacts(v, j, m);
        assert LinkedAt(v.nodes, v.atts[j], m);
      }
    }
  }

  lemma {:induction false} DataChanged(v: Nodes, k: nat, data: string)
    requires Ok(v) && k < |v.nodes| && v.nodes[k].kind == CdataNode
    ensures var w := WithData(v, k, data);
            ChangedAt(v, w, k) && forall j :: 0 <= j < |v.nodes| ==> AttPairs(v, j) == AttPairs(w, j)
  {
    var w := WithData(v, k, data);
    WithDataOk(v, k, data);
    forall j | 0 <= j < |v.nodes| ensures AttPairs(v, j) == AttPairs(w, j) {
      forall m | 0 <= m < |v.atts[j]| ensures var a := v.atts[j][m]; a < |v.nodes| && w.nodes[a] == v.nodes[a] { AttFacts(v, j, m); }
      PairsSame(v, w, j);
    }
  }

  /** The children in front of the last one do not hold it. */
  lemma {:induction false} OthersApart(v: Nodes, i: nat, n: nat)
    requires Ok(v) && i < |v.nodes| && n < |v.kids[i]|
    ensures v.kids[i][n] < |v.nodes| && forall m :: 0 <= m < n ==> !Holds(v, v.kids[i][m], v.kids[i][n])
  {
    KidFacts(v, i, n);
    forall m | 0 <= m < n ensures !Holds(v, v.kids[i][m], v.kids[i][n]) {
      assert OkAt(v, i);
      Ordered(v.nodes, v.kids[i], m, n);
      KidFacts(v, i, m);
      if Holds(v, v.kids[i][m], i) { HoldsOlder(v, v.kids[i][m], i); }
    }
  }

  lemma {:induction false} KidTreesSplit(v: Nodes, i: nat)
    requires Ok(v) && i < |v.nodes| && v.kids[i] != []
    ensures var n := |v.kids[i]| - 1;
            && Above(v, i, v.kids[i]) && Above(v, i, v.kids[i][..n]) && KidTrees(v, i) == TreesOf(v, i, v.kids[i][..n]) + [TreeOf(v, v.kids[i][n])]
  {
    KidsInRange(v, i);
  }

  /** Text appended to the last child. */
  lemma {:induction false} TextExtended(v: Nodes, i: nat, s: string)
    requires Ok(v) && i < |v.nodes| && v.kids[i] != []
    requires v.kids[i][|v.kids[i]| - 1] < |v.nodes| && v.nodes[v.kids[i][|v.kids[i]| - 1]].kind == CdataNode
    ensures var k := v.kids[i][|v.kids[i]| - 1]; var w := WithData(v, k, v.nodes[k].data + s);
            && ChangedAt(v, w, k) && AttPairs(w, i) == AttPairs(v, i) && KidTrees(w, i) == AddText(KidTrees(v, i), s)
  {
    hide KidTrees; hide AttPairs; hide Holds; hide SameAt; hide TreesOf;
    var n := |v.kids[i]| - 1;
    var k := v.kids[i][n];
    var w := WithData(v, k, v.nodes[k].data + s);
    DataChanged(v, k, v.nodes[k].data + s);
    KidTreesSplit(v, i);
    KidTreesSplit(w, i);
    OthersApart(v, i, n);
    TreesSame(v, w, k, i, v.kids[i][..n]);
    assert KidTrees(v, i)[..n] == TreesOf(v, i, v.kids[i][..n]);
  }

  /** The value of an attribute replaced. */
  lemma {:induction false} ValueReplaced(v: Nodes, i: nat, m: nat, data: string)
    requires Ok(v) && i < |v.nodes| && m < |v.atts[i]| && v.atts[i][m] < |v.nodes|
    ensures var w := WithData(v, v.atts[i][m], data);
            && ChangedAt(v, w, i) && w.nodes[i].name == v.nodes[i].name && KidTrees(w, i) == KidTrees(v, i)
            && AttPairs(w, i) == AttPairs(v, i)[m := (v.nodes[v.atts[i][m]].name, data)]
  {
    var k := v.atts[i][m];
    var w := WithData(v, k, data);
    WithDataOk(v, k, data);
    AttFacts(v, i, m);
    forall j | 0 <= j < |v.nodes| && j != i ensures AttPairs(v, j) == AttPairs(w, j) {
      forall n | 0 <= n < |v.atts[j]| ensures var a := v.atts[j][n]; a < |v.nodes| && w.nodes[a] == v.nodes[a] { AttFacts(v, j, n); }
      PairsSame(v, w, j);
    }
    KidsInRange(v, i);
    KidsInRange(w, i);
    KidsBelow(v, i);
    TreesSame(v, w, i, i, v.kids[i]);
    forall n | 0 <= n < |v.atts[i]| && n != m ensures v.atts[i][n] != k {
      assert OkAt(v, i);
      Ordered(v.nodes, v.atts[i], if n < m then n else m, if n < m then m else n);
    }
  }

  lemma {:induction false} Ordered(nodes: seq<Node>, l: seq<nat>, m: nat, n: nat)
    requires Linked(nodes, l) && m < n < |l|
    ensures l[m] < l[n]
    decreases n - m
  {
    assert LinkedAt(nodes, l, m);
    if m + 1 < n { Ordered(nodes, l, m + 1, n); }
  }

  // ---- Taking a node out of its list ----

  function Unlinked(nodes: seq<Node>, c: nat): (r: seq<Node>)
    requires c < |nodes| && (nodes[c].prev.Some? ==> nodes[c].prev.value < |nodes|) && (nodes[c].next.Some? ==> nodes[c].next.value < |nodes|)
    ensures |r| == |nodes|
  {
    var p, n := nodes[c].prev, nodes[c].next;
    var nodes1 := if p.Some? then nodes[p.value := nodes[p.value].(next := n)] else nodes;
    if n.Some? then nodes1[n.value := nodes1[n.value].(prev := p)] else nodes1
  }

  function Without(l: seq<nat>, m: nat): seq<nat>
    requires m < |l|
  {
    l[..m] + l[m + 1..]
  }

  /** xmlnode_hide, or xmlnode_hide_attrib. */
  function Removed(v: Nodes, i: nat, kind: Kind, m: nat): Nodes
    requires |v.nodes| == |v.kids| == |v.atts| == |v.owner| && i < |v.nodes| && m < |ListFor(v, i, kind)|
    requires var c := ListFor(v, i, kind)[m];
             c < |v.nodes| && (v.nodes[c].prev.Some? ==> v.nodes[c].prev.value < |v.nodes|) && (v.nodes[c].next.Some? ==> v.nodes[c].next.value < |v.nodes|)
  {
    var l := ListFor(v, i, kind);
    var l' := Without(l, m);
    var nodes := Unlinked(v.nodes, l[m]);
    if kind == AttribNode then
      v.(nodes := nodes[i := nodes[i].(firstattrib := First(l'), lastattrib := Last(l'))], atts := v.atts[i := l'])
    else
      v.(nodes := nodes[i := nodes[i].(firstchild := First(l'), lastchild := Last(l'))], kids := v.kids[i := l'])
  }

  lemma {:induction false} Neighbours(v: Nodes, i: nat, kind: Kind, m: nat)
    requires Ok(v) && i < |v.nodes| && m < |ListFor(v, i, kind)|
    ensures var l := ListFor(v, i, kind); var c := l[m];
            && i < c < |v.nodes| && v.owner[c] == i
            && v.nodes[c].prev == (if m == 0 then None else Some(l[m - 1])) && v.nodes[c].next == (if m + 1 == |l| then None else Some(l[m + 1]))
            && (m > 0 ==> i < l[m - 1] < c) && (m + 1 < |l| ==> c < l[m + 1] < |v.nodes|)
  {
    var l := ListFor(v, i, kind);
    ListFacts(v, i, kind);
    assert OkAt(v, i) && LinkedAt(v.nodes, l, m);
    if m > 0 { assert LinkedAt(v.nodes, l, m - 1); }
  }

  lemma {:induction false} RemovedAt(v: Nodes, i: nat, kind: Kind, m: nat, j: nat)
    requires Ok(v) && i < |v.nodes| && m < |ListFor(v, i, kind)| && j < |v.nodes|
    ensures var c := ListFor(v, i, kind)[m];
            c < |v.nodes| && (v.nodes[c].prev.Some? ==> v.nodes[c].prev.value < |v.nodes|) && (v.nodes[c].next.Some? ==> v.nodes[c].next.value < |v.nodes|)
    ensures var w := Removed(v, i, kind, m); var l := ListFor(v, i, kind);
            && |w.nodes| == |v.nodes|
            && w.nodes[j].kind == v.nodes[j].kind && w.nodes[j].name == v.nodes[j].name && w.nodes[j].data == v.nodes[j].data && w.nodes[j].parent == v.nodes[j].parent
            && w.nodes[j].prev == (if m + 1 < |l| && j == l[m + 1] then v.nodes[l[m]].prev else v.nodes[j].prev)
            && w.nodes[j].next == (if m > 0 && j == l[m - 1] then v.nodes[l[m]].next else v.nodes[j].next)
            && (j != i || kind == AttribNode ==> w.nodes[j].firstchild == v.nodes[j].firstchild && w.nodes[j].lastchild == v.nodes[j].lastchild)
            && (j != i || kind != AttribNode ==> w.nodes[j].firstattrib == v.nodes[j].firstattrib && w.nodes[j].lastattrib == v.nodes[j].lastattrib)
  {
    Neighbours(v, i, kind, m);
  }

  lemma {:induction false} OtherListKept(v: Nodes, i: nat, kind: Kind, m: nat, j: nat, kind': Kind)
    requires Ok(v) && i < |v.nodes| && m < |ListFor(v, i, kind)| && j < |v.nodes| && (j != i || (kind == AttribNode) != (kind' == AttribNode))
    ensures var c := ListFor(v, i, kind)[m];
            c < |v.nodes| && (v.nodes[c].prev.Some? ==> v.nodes[c].prev.value < |v.nodes|) && (v.nodes[c].next.Some? ==> v.nodes[c].next.value < |v.nodes|)
    ensures Linked(Removed(v, i, kind, m).nodes, ListFor(v, j, kind'))
  {
    hide Removed;
    Neighbours(v, i, kind, m);
    ListFacts(v, i, kind);
    ListFacts(v, j, kind');
    var l := ListFor(v, j, kind');
    assert OkAt(v, j);
    forall n | 0 <= n < |l| ensures LinkedAt(Removed(v, i, kind, m).nodes, l, n) {
      assert LinkedAt(v.nodes, l, n);
      RemovedAt(v, i, kind, m, l[n]);
    }
  }

  lemma {:induction false} OwnListShorter(v: Nodes, i: nat, kind: Kind, m: nat)
    requires Ok(v) && i < |v.nodes| && m < |ListFor(v, i, kind)|
    ensures var c := ListFor(v, i, kind)[m];
            c < |v.nodes| && (v.nodes[c].prev.Some? ==> v.nodes[c].prev.value < |v.nodes|) && (v.nodes[c].next.Some? ==> v.nodes[c].next.value < |v.nodes|)
    ensures Linked(Removed(v, i, kind, m).nodes, Without(ListFor(v, i, kind), m))
  {
    hide Removed; hide LinkedAt; hide OkAt;
    Neighbours(v, i, kind, m);
    ListLinked(v, i, kind);
    forall n | 0 <= n < |Without(ListFor(v, i, kind), m)| ensures LinkedAt(Removed(v, i, kind, m).nodes, Without(ListFor(v, i, kind), m), n) {
      ShorterAt(v, i, kind, m, n);
    }
  }

  lemma {:induction false} ListLinked(v: Nodes, i: nat, kind: Kind)
    requires Ok(v) && i < |v.nodes|
    ensures Linked(v.nodes, ListFor(v, i, kind))
  {
    hide Linked;
    assert OkAt(v, i);
  }

  /** The link of the node at `n` of the shorter list, which was at `o` of the list. */
  lemma {:induction false} ShorterAt(v: Nodes, i: nat, kind: Kind, m: nat, n: nat)
    requires Ok(v) && i < |v.nodes| && m < |ListFor(v, i, kind)| && n + 1 < |ListFor(v, i, kind)|
    ensures var c := ListFor(v, i, kind)[m];
            c < |v.nodes| && (v.nodes[c].prev.Some? ==> v.nodes[c].prev.value < |v.nodes|) && (v.nodes[c].next.Some? ==> v.nodes[c].next.value < |v.nodes|)
    ensures LinkedAt(Removed(v, i, kind, m).nodes, Without(ListFor(v, i, kind), m), n)
  {
    hide Removed; hide OkAt; hide ListFor; hide Linked;
    Neighbours(v, i, kind, m);
    ListLinked(v, i, kind);
    var l := ListFor(v, i, kind);
    var o := if n < m then n else n + 1;
    LinkAt(v.nodes, l, o);
    RemovedAt(v, i, kind, m, l[o]);
    if m > 0 { Apart(v.nodes, l, o, m - 1); }
    if m + 1 < |l| { Apart(v.nodes, l, o, m + 1); if m > 0 { Apart(v.nodes, l, m - 1, m + 1); } }
  }

  lemma {:induction false} LinkAt(nodes: seq<Node>, l: seq<nat>, m: nat)
    requires Linked(nodes, l) && m < |l|
    ensures LinkedAt(nodes, l, m)
  {
  }

  lemma {:induction false} Apart(nodes: seq<Node>, l: seq<nat>, m: nat, n: nat)
    requires Linked(nodes, l) && m < |l| && n < |l|
    ensures (m < n ==> l[m] < l[n]) && (n < m ==> l[n] < l[m])
  {
    hide Linked;
    if m < n { Ordered(nodes, l, m, n); }
    if n < m { Ordered(nodes, l, n, m); }
  }

  lemma {:induction false} RemovedOk(v: Nodes, i: nat, kind: Kind, m: nat)
    requires Ok(v) && i < |v.nodes| && m < |ListFor(v, i, kind)|
    ensures var c := ListFor(v, i, kind)[m];
            c < |v.nodes| && (v.nodes[c].prev.Some? ==> v.nodes[c].prev.value < |v.nodes|) && (v.nodes[c].next.Some? ==> v.nodes[c].next.value < |v.nodes|)
    ensures Ok(Removed(v, i, kind, m))
  {
    hide OkAt;
    Neighbours(v, i, kind, m);
    forall j | 0 <= j < |v.nodes| ensures OkAt(Removed(v, i, kind, m), j) { RemovedOkAt(v, i, kind, m, j); }
  }

  lemma {:induction false} RemovedOkAt(v: Nodes, i: nat, kind: Kind, m: nat, j: nat)
    requires Ok(v) && i < |v.nodes| && m < |ListFor(v, i, kind)| && j < |v.nodes|
    ensures var c := ListFor(v, i, kind)[m];
            c < |v.nodes| && (v.nodes[c].prev.Some? ==> v.nodes[c].prev.value < |v.nodes|) && (v.nodes[c].next.Some? ==> v.nodes[c].next.value < |v.nodes|)
    ensures |Removed(v, i, kind, m).nodes| == |Removed(v, i, kind, m).kids| == |Removed(v, i, kind, m).atts| == |Removed(v, i, kind, m).owner| == |v.nodes|
    ensures OkAt(Removed(v, i, kind, m), j)
  {
    hide Linked; hide KidOk; hide AttOk;
    Neighbours(v, i, kind, m);
    assert OkAt(v, j);
    EndFacts(v, i);
    RemovedAt(v, i, kind, m, j);
    if j == i { OwnListShorter(v, i, kind, m); }
    if j != i || kind == AttribNode { OtherListKept(v, i, kind, m, j, TagNode); }
    if j != i || kind != AttribNode { OtherListKept(v, i, kind, m, j, AttribNode); }
    RemovedKidsOk(v, i, kind, m, j);
    RemovedAttsOk(v, i, kind, m, j);
  }

  lemma {:induction false} RemovedKidsOk(v: Nodes, i: nat, kind: Kind, m: nat, j: nat)
    requires Ok(v) && i < |v.nodes| && m < |ListFor(v, i, kind)| && j < |v.nodes|
    ensures var c := ListFor(v, i, kind)[m];
            c < |v.nodes| && (v.nodes[c].prev.Some? ==> v.nodes[c].prev.value < |v.nodes|) && (v.nodes[c].next.Some? ==> v.nodes[c].next.value < |v.nodes|)
    ensures var w := Removed(v, i, kind, m); |w.kids| == |w.owner| == |w.nodes| == |v.nodes| && forall n :: 0 <= n < |w.kids[j]| ==> KidOk(w, j, w.kids[j][n])
  {
    hide OkAt;
    Neighbours(v, i, kind, m);
    var w := Removed(v, i, kind, m);
    forall n | 0 <= n < |w.kids[j]| ensures KidOk(w, j, w.kids[j][n]) {
      var o := if j == i && kind != AttribNode && n >= m then n + 1 else n;
      assert w.kids[j][n] == v.kids[j][o];
      KidFacts(v, j, o);
      RemovedAt(v, i, kind, m, v.kids[j][o]);
    }
  }

  lemma {:induction false} RemovedAttsOk(v: Nodes, i: nat, kind: Kind, m: nat, j: nat)
    requires Ok(v) && i < |v.nodes| && m < |ListFor(v, i, kind)| && j < |v.nodes|
    ensures var c := ListFor(v, i, kind)[m];
            c < |v.nodes| && (v.nodes[c].prev.Some? ==> v.nodes[c].prev.value < |v.nodes|) && (v.nodes[c].next.Some? ==> v.nodes[c].next.value < |v.nodes|)
    ensures var w := Removed(v, i, kind, m); |w.atts| == |w.owner| == |w.nodes| == |v.nodes| && forall n :: 0 <= n < |w.atts[j]| ==> AttOk(w, j, w.atts[j][n])
  {
    hide OkAt;
    Neighbours(v, i, kind, m);
    var w := Removed(v, i, kind, m);
    forall n | 0 <= n < |w.atts[j]| ensures AttOk(w, j, w.atts[j][n]) {
      var o := if j == i && kind == AttribNode && n >= m then n + 1 else n;
      assert w.atts[j][n] == v.atts[j][o];
      AttFacts(v, j, o);
      RemovedAt(v, i, kind, m, v.atts[j][o]);
    }
  }

  lemma {:induction false} RemovedChanged(v: Nodes, i: nat, kind: Kind, m: nat)
    requires Ok(v) && i < |v.nodes| && m < |ListFor(v, i, kind)|
    ensures var c := ListFor(v, i, kind)[m];
            c < |v.nodes| && (v.nodes[c].prev.Some? ==> v.nodes[c].prev.value < |v.nodes|) && (v.nodes[c].next.Some? ==> v.nodes[c].next.value < |v.nodes|)
    ensures ChangedAt(v, Removed(v, i, kind, m), i)
  {
    Neighbours(v, i, kind, m);
    RemovedOk(v, i, kind, m);
    var w := Removed(v, i, kind, m);
    RemovedAt(v, i, kind, m, i);
    forall j | 0 <= j < |v.nodes| && j != i && v.nodes[j].kind != AttribNode ensures SameAt(v, w, j) {
      RemovedAt(v, i, kind, m, j);
      forall n | 0 <= n < |v.atts[j]| ensures var k := v.atts[j][n]; k < |v.nodes| && w.nodes[k].name == v.nodes[k].name && w.nodes[k].data == v.nodes[k].data {
        AttFacts(v, j, n);
        RemovedAt(v, i, kind, m, v.atts[j][n]);
      }
      PairsSame(v, w, j);
    }
  }

  function Drop<T>(l: seq<T>, m: nat): seq<T>
    requires m < |l|
  {
    l[..m] + l[m + 1..]
  }

  lemma {:induction false} TreesConcat(v: Nodes, low: nat, a: seq<nat>, b: seq<nat>)
    requires Ok(v) && low < |v.nodes| && Above(v, low, a) && Above(v, low, b)
    ensures Above(v, low, a + b) && TreesOf(v, low, a + b) == TreesOf(v, low, a) + TreesOf(v, low, b)
    decreases |b|
  {
    if b == [] {
      assert a + b == a;
    } else {
      assert (a + b)[..|a + b| - 1] == a + b[..|b| - 1];
      TreesConcat(v, low, a, b[..|b| - 1]);
    }
  }

  lemma {:induction false} RemovedPairs(v: Nodes, i: nat, m: nat)
    requires Ok(v) && i < |v.nodes| && v.nodes[i].kind == TagNode && m < |v.kids[i]|
    ensures var c := v.kids[i][m];
            c < |v.nodes| && (v.nodes[c].prev.Some? ==> v.nodes[c].prev.value < |v.nodes|) && (v.nodes[c].next.Some? ==> v.nodes[c].next.value < |v.nodes|)
    ensures var w := Removed(v, i, TagNode, m); Ok(w) && w.nodes[i].name == v.nodes[i].name && AttPairs(w, i) == AttPairs(v, i)
  {
    hide Removed;
    RemovedOk(v, i, TagNode, m);
    var w := Removed(v, i, TagNode, m);
    RemovedAt(v, i, TagNode, m, i);
    assert w.atts == v.atts by { RemovedLists(v, i, m); }
    forall n | 0 <= n < |v.atts[i]| ensures var k := v.atts[i][n]; k < |v.nodes| && w.nodes[k].name == v.nodes[k].name && w.nodes[k].data == v.nodes[k].data {
      AttFacts(v, i, n);
      RemovedAt(v, i, TagNode, m, v.atts[i][n]);
    }
    PairsSame(v, w, i);
  }

  lemma {:induction false} RemovedLists(v: Nodes, i: nat, m: nat)
    requires Ok(v) && i < |v.nodes| && m < |v.kids[i]|
    ensures var c := v.kids[i][m];
            c < |v.nodes| && (v.nodes[c].prev.Some? ==> v.nodes[c].prev.value < |v.nodes|) && (v.nodes[c].next.Some? ==> v.nodes[c].next.value < |v.nodes|)
    ensures var w := Removed(v, i, TagNode, m); w.atts == v.atts && w.kids[i] == Without(v.kids[i], m)
  {
    Neighbours(v, i, TagNode, m);
  }

  lemma {:induction false} TreesWithout(v: Nodes, low: nat, l: seq<nat>, m: nat)
    requires Ok(v) && low < |v.nodes| && Above(v, low, l) && m < |l|
    ensures Above(v, low, Without(l, m)) && TreesOf(v, low, Without(l, m)) == Drop(TreesOf(v, low, l), m)
  {
    hide TreesOf;
    var a, c, b := l[..m], l[m..m + 1], l[m + 1..];
    TreesConcat(v, low, c, b);
    TreesConcat(v, low, a, c + b);
    TreesConcat(v, low, a, b);
    assert l == a + (c + b);
    var s, t, u := TreesOf(v, low, a), TreesOf(v, low, c), TreesOf(v, low, b);
    assert (s + (t + u))[..m] == s && (s + (t + u))[m + 1..] == u;
  }

  /** A hidden child is gone from its parent, and nothing else is. */
  lemma {:induction false} RemovedKid(v: Nodes, i: nat, m: nat)
    requires Ok(v) && i < |v.nodes| && v.nodes[i].kind == TagNode && m < |v.kids[i]|
    ensures var c := v.kids[i][m];
            c < |v.nodes| && (v.nodes[c].prev.Some? ==> v.nodes[c].prev.value < |v.nodes|) && (v.nodes[c].next.Some? ==> v.nodes[c].next.value < |v.nodes|)
    ensures var w := Removed(v, i, TagNode, m);
            && ChangedAt(v, w, i) && w.nodes[i].name == v.nodes[i].name && AttPairs(w, i) == AttPairs(v, i)
            && |KidTrees(v, i)| == |v.kids[i]| && KidTrees(w, i) == Drop(KidTrees(v, i), m)
  {
    hide Removed; hide TreesOf; hide Holds; hide SameAt; hide AttPairs;
    RemovedChanged(v, i, TagNode, m);
    RemovedPairs(v, i, m);
    RemovedLists(v, i, m);
    var w := Removed(v, i, TagNode, m);
    var l := v.kids[i];
    KidsInRange(v, i);
    KidsInRange(w, i);
    KidsBelow(v, i);
    TreesWithout(v, i, l, m);
    TreesSame(v, w, i, i, Without(l, m));
  }
}
