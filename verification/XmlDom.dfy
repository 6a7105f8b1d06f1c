/**
 The DOM of libjabber/xmlnode.c as an object over a table of nodes: inserting,
 hiding, attributes, the printer without a stack, comparison, duplication, and
 the callbacks of libjabber/expat.c.
 */
module XmlDom {
  import opened XmlValue
  import opened XmlContent
  import opened XmlTree
  import opened XmlNodes
  import opened XmlStr

  /** A new root at the end of the table. */
  function Rooted(v: Nodes, name: string): Nodes
  {
    Nodes(v.nodes + [Fresh(TagNode, name, "")], v.kids + [[]], v.atts + [[]], v.owner + [-1])
  }

  lemma {:induction false} RootedOk(v: Nodes, name: string)
    requires Ok(v)
    ensures var w := Rooted(v, name); Ok(w) && KidTrees(w, |v.nodes|) == [] && AttPairs(w, |v.nodes|) == []
    ensures forall i :: 0 <= i < |v.nodes| && v.nodes[i].kind != AttribNode ==> SameAt(v, Rooted(v, name), i)
  {
    var w := Rooted(v, name);
    forall j | 0 <= j < |w.nodes| ensures OkAt(w, j) {
      if j < |v.nodes| {
        assert OkAt(v, j);
        forall m | 0 <= m < |w.kids[j]| ensures KidOk(w, j, w.kids[j][m]) && LinkedAt(w.nodes, w.kids[j], m) {
          KidFacts(v, j, m);
          assert LinkedAt(v.nodes, v.kids[j], m);
        }
        forall m | 0 <= m < |w.atts[j]| ensures AttOk(w, j, w.atts[j][m]) && LinkedAt(w.nodes, w.atts[j], m) {
          AttFacts(v, j, m);
          assert LinkedAt(v.nodes, v.atts[j], m);
        }
      }
    }
    forall i | 0 <= i < |v.nodes| && v.nodes[i].kind != AttribNode ensures SameAt(v, w, i) {
      forall m | 0 <= m < |v.atts[i]| ensures v.atts[i][m] < |v.nodes| { AttFacts(v, i, m); }
      PairsSame(v, w, i);
    }
  }

  /** Whether a node is the one a search is for. */
  predicate Matches(n: Node, name: string, kind: Kind) { n.kind == kind && n.name == name }

  /** xmlnode_put_attrib on the table; `m` is where the name was found, if it was. */
  function WithAttribute(v: Nodes, i: nat, name: string, value: string, m: nat): Nodes
    requires |v.nodes| == |v.kids| == |v.atts| == |v.owner| && i < |v.nodes|
    requires forall n :: 0 <= n < |v.atts[i]| ==> v.atts[i][n] < |v.nodes|
  {
    if m < |v.atts[i]| then WithData(v, v.atts[i][m], value) else Appended(v, i, AttribNode, name, value)
  }

  /** `m` is the first place of the name in the list, or behind it. */
  ghost predicate FirstMatch(nodes: seq<Node>, l: seq<nat>, name: string, kind: Kind, m: nat)
    requires forall n :: 0 <= n < |l| ==> l[n] < |nodes|
  {
    m <= |l| && (m < |l| ==> Matches(nodes[l[m]], name, kind)) && forall n :: 0 <= n < m ==> !Matches(nodes[l[n]], name, kind)
  }

  lemma {:induction false} PutAttAt(pairs: seq<(string, string)>, name: string, value: string, m: nat)
    requires m <= |pairs| && (m < |pairs| ==> pairs[m].0 == name) && forall n :: 0 <= n < m ==> pairs[n].0 != name
    ensures PutAtt(pairs, name, value) == if m < |pairs| then pairs[m := (name, value)] else pairs + [(name, value)]
    decreases |pairs|
  {
    if pairs != [] {
      if m > 0 { PutAttAt(pairs[1..], name, value, m - 1); }
      assert pairs == [pairs[0]] + pairs[1..];
    }
  }

  /** xmlnode_put_attrib sets one attribute of one node. */
  lemma {:induction false} AttributePut(v: Nodes, i: nat, name: string, value: string, m: nat)
    requires Ok(v) && i < |v.nodes| && v.nodes[i].kind == TagNode
    requires forall n :: 0 <= n < |v.atts[i]| ==> v.atts[i][n] < |v.nodes|
    requires FirstMatch(v.nodes, v.atts[i], name, AttribNode, m)
    ensures var w := WithAttribute(v, i, name, value, m);
            && ChangedAt(v, w, i) && w.nodes[i].name == v.nodes[i].name && KidTrees(w, i) == KidTrees(v, i)
            && AttPairs(w, i) == PutAtt(AttPairs(v, i), name, value)
  {
    var pairs := AttPairs(v, i);
    forall n | 0 <= n < |v.atts[i]| ensures pairs[n].0 == v.nodes[v.atts[i][n]].name && v.nodes[v.atts[i][n]].kind == AttribNode { AttFacts(v, i, n); }
    PutAttAt(pairs, name, value, m);
    if m < |v.atts[i]| { ValueReplaced(v, i, m, value); } else { AppendedAtt(v, i, name, value); }
  }

  /** xmlnode_insert_cdata on the table. */
  function WithText(v: Nodes, i: nat, s: string): Nodes
    requires |v.nodes| == |v.kids| == |v.atts| == |v.owner| && i < |v.nodes|
    requires forall n :: 0 <= n < |v.kids[i]| ==> v.kids[i][n] < |v.nodes|
  {
    var last := Last(v.kids[i]);
    if last.Some? && v.nodes[last.value].kind == CdataNode then WithData(v, last.value, v.nodes[last.value].data + s)
    else Appended(v, i, CdataNode, "", s)
  }

  /** All that changed is at `c`, at a text of `c`, and new nodes. */
  ghost predicate Grown(v: Nodes, w: Nodes, c: nat)
  {
    && Ok(v) && Ok(w) && c < |v.nodes| <= |w.nodes|
    && (forall i :: 0 <= i < |v.nodes| && i != c && v.nodes[i].kind != AttribNode && !IsTextOf(v, i, c) ==> SameAt(v, w, i))
    && (forall i :: 0 <= i < |v.nodes| ==> w.owner[i] == v.owner[i] && KeptAt(v, w, c, i))
  }

  /** What no operation at `c` changes of a node: all but its data, and its link to the next node if it belongs to `c`. */
  ghost predicate KeptAt(v: Nodes, w: Nodes, c: nat, i: nat)
    requires i < |v.nodes| <= |w.nodes| && |v.nodes| == |v.owner|
  {
    && w.nodes[i].kind == v.nodes[i].kind && w.nodes[i].name == v.nodes[i].name && w.nodes[i].parent == v.nodes[i].parent
    && (v.owner[i] != c ==> w.nodes[i].next == v.nodes[i].next)
  }

  ghost predicate IsTextOf(v: Nodes, i: nat, c: nat)
    requires i < |v.nodes| == |v.owner|
  {
    v.owner[i] == c && v.nodes[i].kind == CdataNode
  }

  lemma {:induction false} ChangedGrown(v: Nodes, w: Nodes, c: nat)
    requires ChangedAt(v, w, c) && forall i :: 0 <= i < |v.nodes| ==> KeptAt(v, w, c, i)
    ensures Grown(v, w, c)
  {
  }

  lemma {:induction false} GrownTwice(u: Nodes, v: Nodes, w: Nodes, c: nat, c': nat)
    requires Grown(u, v, c) && Grown(v, w, c') && (c' == c || c' >= |u.nodes|)
    ensures Grown(u, w, c)
  {
    forall i | 0 <= i < |u.nodes| && i != c && u.nodes[i].kind != AttribNode && !IsTextOf(u, i, c) ensures SameAt(u, w, i) {
      assert SameAt(u, v, i);
      assert OkAt(u, i);
      assert SameAt(v, w, i);
    }
    forall i | 0 <= i < |u.nodes| ensures KeptAt(u, w, c, i) {
      assert OkAt(u, i) && KeptAt(u, v, c, i) && KeptAt(v, w, c', i);
    }
  }

  lemma {:induction false} GrownTree(v: Nodes, w: Nodes, c: nat, i: nat)
    requires Grown(v, w, c) && i < |v.nodes| && v.nodes[i].kind != AttribNode && !Reaches(v, i, c) && !IsTextOf(v, i, c)
    ensures TreeOf(w, i) == TreeOf(v, i)
    decreases |v.nodes| - i, 1, 0
  {
    assert SameAt(v, w, i);
    if v.nodes[i].kind == TagNode {
      KidsInRange(v, i);
      KidsInRange(w, i);
      ApartDown(v, i, c);
      forall m | 0 <= m < |v.kids[i]| ensures !IsTextOf(v, v.kids[i][m], c) { KidFacts(v, i, m); }
      GrownTrees(v, w, c, i, v.kids[i]);
    }
  }

  lemma {:induction false} GrownTrees(v: Nodes, w: Nodes, c: nat, low: nat, l: seq<nat>)
    requires Grown(v, w, c) && low < |v.nodes| && Above(v, low, l)
    requires forall m :: 0 <= m < |l| ==> !Reaches(v, l[m], c) && !IsTextOf(v, l[m], c)
    ensures Above(w, low, l) && TreesOf(w, low, l) == TreesOf(v, low, l)
    decreases |v.nodes| - low, 0, |l|
  {
    if l != [] {
      GrownTrees(v, w, c, low, l[..|l| - 1]);
      GrownTree(v, w, c, l[|l| - 1]);
    }
  }

  lemma {:induction false} AppendedKept(v: Nodes, i: nat, kind: Kind, name: string, data: string)
    requires Ok(v) && i < |v.nodes|
    ensures forall m :: 0 <= m < |ListFor(v, i, kind)| ==> ListFor(v, i, kind)[m] < |v.nodes|
    ensures var w := Appended(v, i, kind, name, data); |v.nodes| <= |w.nodes| && forall j :: 0 <= j < |v.nodes| ==> KeptAt(v, w, i, j)
  {
    hide Appended;
    ListFacts(v, i, kind);
    AppendedAt(v, i, kind, name, data, i);
    forall j | 0 <= j < |v.nodes| ensures KeptAt(v, Appended(v, i, kind, name, data), i, j) { AppendedAt(v, i, kind, name, data, j); }
  }

  lemma {:induction false} TextGrown(v: Nodes, i: nat, s: string)
    requires Ok(v) && i < |v.nodes| && v.kids[i] != []
    requires v.kids[i][|v.kids[i]| - 1] < |v.nodes| && v.nodes[v.kids[i][|v.kids[i]| - 1]].kind == CdataNode
    ensures var k := v.kids[i][|v.kids[i]| - 1]; Grown(v, WithData(v, k, v.nodes[k].data + s), i)
  {
    hide SameAt;
    TextExtended(v, i, s);
    KidFacts(v, i, |v.kids[i]| - 1);
  }

  lemma {:induction false} TextAdded(v: Nodes, i: nat, s: string)
    requires Ok(v) && i < |v.nodes| && v.nodes[i].kind == TagNode
    ensures forall n :: 0 <= n < |v.kids[i]| ==> v.kids[i][n] < |v.nodes|
    ensures var w := WithText(v, i, s); Grown(v, w, i) && AttPairs(w, i) == AttPairs(v, i) && KidTrees(w, i) == AddText(KidTrees(v, i), s)
  {
    hide Appended; hide AttPairs; hide TreesOf; hide TreeOf; hide SameAt; hide Linked;
    KidsInRange(v, i);
    var l := v.kids[i];
    if l != [] && v.nodes[l[|l| - 1]].kind == CdataNode {
      hide KidTrees;
      TextExtended(v, i, s);
      TextGrown(v, i, s);
    } else {
      AppendedKid(v, i, CdataNode, "", s);
      AppendedKept(v, i, CdataNode, "", s);
      ChangedGrown(v, Appended(v, i, CdataNode, "", s), i);
      if l != [] { TreesAt(v, i, l, |l| - 1); KindOfLast(v, l[|l| - 1]); }
    }
  }

  lemma {:induction false} KindOfLast(v: Nodes, k: nat)
    requires Ok(v) && k < |v.nodes| && v.nodes[k].kind == TagNode
    ensures TreeOf(v, k).Tag?
  {
  }

  class Dom {
    var nodes: seq<Node>
    ghost var kids: seq<seq<nat>>
    ghost var atts: seq<seq<nat>>
    ghost var owner: seq<int>

    ghost function View(): Nodes
      reads this
    {
      Nodes(nodes, kids, atts, owner)
    }

    ghost predicate Valid()
      reads this
    {
      Ok(View())
    }

    constructor ()
      ensures Valid() && nodes == []
    {
      nodes, kids, atts, owner := [], [], [], [];
    }

    /** xmlnode_new_tag. */
    method NewTag(name: string) returns (k: nat)
      requires Valid()
      modifies this
      ensures Valid() && k == |old(nodes)| && View() == Rooted(old(View()), name)
    {
      RootedOk(View(), name);
      k := |nodes|;
      nodes := nodes + [Fresh(TagNode, name, "")];
      kids, atts, owner := kids + [[]], atts + [[]], owner + [-1];
    }

    /** _xmlnode_insert with its two branches; the caller's data is stored in the new node. */
    method Insert(parent: nat, name: string, kind: Kind, data: string) returns (k: nat)
      requires Valid() && parent < |nodes| && nodes[parent].kind == TagNode && kind != AttribNode
      modifies this
      ensures Valid() && k == |old(nodes)| && forall n :: 0 <= n < |old(kids)[parent]| ==> old(kids)[parent][n] < |old(nodes)|
      ensures View() == Appended(old(View()), parent, kind, name, data)
    {
      ghost var v := View();
      EndFacts(v, parent);
      ListFacts(v, parent, kind);
      AppendedOk(v, parent, kind, name, data);
      ghost var l := kids[parent];
      k := |nodes|;
      if nodes[parent].firstchild.None? {
        nodes := nodes + [Fresh(kind, name, data)];
        nodes := nodes[parent := nodes[parent].(firstchild := Some(k))];
      } else {
        var last := nodes[parent].lastchild.value;
        nodes := nodes + [Fresh(kind, name, data).(prev := Some(last))];
        nodes := nodes[last := nodes[last].(next := Some(k))];
      }
      nodes := nodes[k := nodes[k].(parent := Some(parent))];
      nodes := nodes[parent := nodes[parent].(lastchild := Some(k))];
      kids, atts, owner := kids[parent := l + [k]] + [[]], atts + [[]], owner + [parent];
      assert nodes == Appended(v, parent, kind, name, data).nodes;
    }

    /** xmlnode_insert_cdata: text behind text is merged into the node that is there. */
    method InsertCdata(parent: nat, s: string) returns (k: nat)
      requires Valid() && parent < |nodes| && nodes[parent].kind == TagNode
      modifies this
      ensures Valid() && forall n :: 0 <= n < |old(kids)[parent]| ==> old(kids)[parent][n] < |old(nodes)|
      ensures View() == WithText(old(View()), parent, s)
      ensures Grown(old(View()), View(), parent) && AttPairs(View(), parent) == AttPairs(old(View()), parent)
      ensures KidTrees(View(), parent) == AddText(KidTrees(old(View()), parent), s)
    {
      ghost var v := View();
      EndFacts(v, parent);
      TextAdded(v, parent, s);
      var last := nodes[parent].lastchild;
      if last.Some? && nodes[last.value].kind == CdataNode {
        k := last.value;
        nodes := nodes[k := nodes[k].(data := nodes[k].data + s)];
      } else {
        k := Insert(parent, "", CdataNode, s);
      }
    }

    /** _xmlnode_search: the first node of the name and kind, from a first sibling on. */
    method Search(first: Option<nat>, name: string, kind: Kind, ghost l: seq<nat>) returns (r: Option<nat>, ghost m: nat)
      requires first == First(l) && Linked(nodes, l) && forall n :: 0 <= n < |l| ==> l[n] < |nodes|
      ensures FirstMatch(nodes, l, name, kind, m) && r == if m < |l| then Some(l[m]) else None
    {
      r := first;
      m := 0;
      while r.Some?
        invariant m <= |l| && r == (if m < |l| then Some(l[m]) else None)
        invariant forall n :: 0 <= n < m ==> !Matches(nodes[l[n]], name, kind)
        decreases |l| - m
      {
        if nodes[r.value].kind == kind && nodes[r.value].name == name { return; }
        assert LinkedAt(nodes, l, m);
        r := nodes[r.value].next;
        m := m + 1;
      }
    }

    /** xmlnode_put_attrib. */
    method PutAttrib(i: nat, name: string, value: string)
      requires Valid() && i < |nodes| && nodes[i].kind == TagNode
      modifies this
      ensures Valid() && Grown(old(View()), View(), i)
      ensures KidTrees(View(), i) == KidTrees(old(View()), i) && AttPairs(View(), i) == PutAtt(AttPairs(old(View()), i), name, value)
    {
      ghost var v := View();
      EndFacts(v, i);
      KidsInRange(v, i);
      ghost var l := atts[i];
      ghost var m := 0;
      assert Linked(nodes, l) by { assert OkAt(v, i); }
      if nodes[i].firstattrib.None? {
        AppendAttrib(i, name, value);
      } else {
        var found;
        found, m := Search(nodes[i].firstattrib, name, AttribNode, l);
        if found.None? {
          AppendAttrib(i, name, value);
        } else {
          nodes := nodes[found.value := nodes[found.value].(data := value)];
        }
      }
      AttributePut(v, i, name, value, m);
      assert View() == WithAttribute(v, i, name, value, m);
      AttributesKept(v, i, name, value, m);
      ChangedGrown(v, View(), i);
    }

    /** The new attribute of xmlnode_put_attrib, first or behind the others. */
    method AppendAttrib(i: nat, name: string, value: string)
      requires Valid() && i < |nodes| && nodes[i].kind == TagNode
      modifies this
      ensures Valid() && forall n :: 0 <= n < |old(atts)[i]| ==> old(atts)[i][n] < |old(nodes)|
      ensures View() == Appended(old(View()), i, AttribNode, name, value)
    {
      ghost var v := View();
      EndFacts(v, i);
      ListFacts(v, i, AttribNode);
      AppendedOk(v, i, AttribNode, name, value);
      ghost var l := atts[i];
      var k := |nodes|;
      if nodes[i].firstattrib.None? {
        nodes := nodes + [Fresh(AttribNode, name, "")];
        nodes := nodes[i := nodes[i].(firstattrib := Some(k), lastattrib := Some(k))];
      } else {
        var last := nodes[i].lastattrib.value;
        nodes := nodes + [Fresh(AttribNode, name, "").(prev := Some(last))];
        nodes := nodes[last := nodes[last].(next := Some(k))];
        nodes := nodes[i := nodes[i].(lastattrib := Some(k))];
      }
      nodes := nodes[k := nodes[k].(data := value)];
      kids, atts, owner := kids + [[]], atts[i := l + [k]] + [[]], owner + [i];
      assert nodes == Appended(v, i, AttribNode, name, value).nodes;
    }

    /** xmlnode_get_attrib. */
    method GetAttrib(i: nat, name: string) returns (value: Option<string>)
      requires Valid() && i < |nodes|
      ensures match value
              case None => forall n :: 0 <= n < |AttPairs(View(), i)| ==> AttPairs(View(), i)[n].0 != name
              case Some(s) => exists n :: 0 <= n < |AttPairs(View(), i)| && AttPairs(View(), i)[n] == (name, s)
    {
      EndFacts(View(), i);
      KidsInRange(View(), i);
      assert Linked(nodes, atts[i]) by { assert OkAt(View(), i); }
      forall n | 0 <= n < |atts[i]| ensures nodes[atts[i][n]].kind == AttribNode { AttFacts(View(), i, n); }
      var found;
      ghost var m;
      found, m := Search(nodes[i].firstattrib, name, AttribNode, atts[i]);
      ghost var pairs := AttPairs(View(), i);
      if found.None? {
        assert forall n :: 0 <= n < |pairs| ==> pairs[n] == (nodes[atts[i][n]].name, nodes[atts[i][n]].data);
        return None;
      }
      assert pairs[m] == (name, nodes[found.value].data);
      return Some(nodes[found.value].data);
    }

    /** xmlnode_hide: `m` is the child's place under its parent. */
    method Hide(child: nat, ghost i: nat, ghost m: nat)
      requires Valid() && i < |nodes| && nodes[i].kind == TagNode && m < |kids[i]| && kids[i][m] == child
      modifies this
      ensures Valid() && ChangedAt(old(View()), View(), i) && AttPairs(View(), i) == AttPairs(old(View()), i)
      ensures |KidTrees(old(View()), i)| == |old(kids)[i]| && KidTrees(View(), i) == Drop(KidTrees(old(View()), i), m)
    {
      hide OkAt; hide Removed; hide ChangedAt; hide KidTrees; hide AttPairs; hide Drop;
      ghost var v := View();
      RemovedKid(v, i, m);
      RemovedOk(v, i, TagNode, m);
      HideFacts(v, i, m);
      var parent := nodes[child].parent.value;
      var prev, next := nodes[child].prev, nodes[child].next;
      if prev.Some? { nodes := nodes[prev.value := nodes[prev.value].(next := next)]; }
      if next.Some? { nodes := nodes[next.value := nodes[next.value].(prev := prev)]; }
      if nodes[parent].firstchild == Some(child) { nodes := nodes[parent := nodes[parent].(firstchild := next)]; }
      if nodes[parent].lastchild == Some(child) { nodes := nodes[parent := nodes[parent].(lastchild := prev)]; }
      kids := kids[i := Without(kids[i], m)];
      assert View() == Removed(v, i, TagNode, m);
    }
  }

  /** What xmlnode_hide finds, and the table it is to leave. */
  lemma {:induction false} HideFacts(v: Nodes, i: nat, m: nat)
    requires Ok(v) && i < |v.nodes| && m < |v.kids[i]|
    ensures var l := v.kids[i]; var child := l[m];
            && i < child < |v.nodes| && v.nodes[child].parent == Some(i)
            && v.nodes[child].prev == (if m == 0 then None else Some(l[m - 1])) && v.nodes[child].next == (if m + 1 == |l| then None else Some(l[m + 1]))
            && (m > 0 ==> i < l[m - 1] < |v.nodes|) && (m + 1 < |l| ==> child < l[m + 1] < |v.nodes|)
            && (v.nodes[i].firstchild == Some(child) <==> m == 0) && (v.nodes[i].lastchild == Some(child) <==> m + 1 == |l|)
            && Removed(v, i, TagNode, m) ==
               var nodes := Unlinked(v.nodes, child); var l' := Without(l, m);
               v.(nodes := nodes[i := nodes[i].(firstchild := if m == 0 then v.nodes[child].next else nodes[i].firstchild,
                                                lastchild := if m + 1 == |l| then v.nodes[child].prev else nodes[i].lastchild)],
                  kids := v.kids[i := l'])
  {
    var l := v.kids[i];
    Neighbours(v, i, TagNode, m);
    KidFacts(v, i, m);
    EndFacts(v, i);
    assert OkAt(v, i);
    if m > 0 { Ordered(v.nodes, l, 0, m); }
    if m + 1 < |l| { Ordered(v.nodes, l, m, |l| - 1); }
  }

  lemma {:induction false} AttributesKept(v: Nodes, i: nat, name: string, value: string, m: nat)
    requires Ok(v) && i < |v.nodes| && v.nodes[i].kind == TagNode
    requires forall n :: 0 <= n < |v.atts[i]| ==> v.atts[i][n] < |v.nodes|
    ensures var w := WithAttribute(v, i, name, value, m); |v.nodes| <= |w.nodes| && forall j :: 0 <= j < |v.nodes| ==> KeptAt(v, w, i, j)
  {
    if m >= |v.atts[i]| { AppendedKept(v, i, AttribNode, name, value); }
  }
}
