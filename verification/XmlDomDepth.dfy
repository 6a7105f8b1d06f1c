/**
 When xmlnode_insert_tag_node of libjabber/xmlnode.c comes to an end: copying a
 node to a place in itself meets the copy again and again.
 */
module XmlDomDepth {
  import opened XmlValue
  import opened XmlTree
  import opened XmlNodes
  import opened XmlDom
  import opened XmlDomCopy

  /** The table with the new tag, the first thing the call does. */
  function WithChild(v: Nodes, parent: nat, node: nat): Nodes
    requires Ok(v) && parent < |v.nodes| && node < |v.nodes|
  {
    KidsInRange(v, parent);
    Appended(v, parent, TagNode, v.nodes[node].name, "")
  }

  /** The call for `parent` and `node` is made in order: both are tags. */
  ghost predicate Callable(v: Nodes, parent: nat, node: nat)
  {
    Ok(v) && parent < |v.nodes| && node < |v.nodes| && v.nodes[parent].kind == TagNode && v.nodes[node].kind == TagNode
  }

  /** Among the children of `node` there is, once the new tag `k` is in place, the tag `kid` at place `m`, and it still is
      whatever has been copied below `k` by then: the loop of xmlnode_insert_node calls itself for `k` and `kid`. */
  ghost predicate Meets(v: Nodes, parent: nat, node: nat, m: nat)
    requires Callable(v, parent, node)
  {
    var v1, k := WithChild(v, parent, node), |v.nodes|;
    && node < |v1.kids| && m < |v1.kids[node]|
    && forall w: Nodes :: Grown(v1, w, k) ==> Callable(w, k, v1.kids[node][m]) && node < |w.kids| && m < |w.kids[node]| && w.kids[node][m] == v1.kids[node][m]
  }

  /** The call nests at least `n` deep, or does not come to its end for an earlier child. */
  ghost predicate Deep(v: Nodes, parent: nat, node: nat, n: nat)
    decreases n, 1
  {
    n == 0 || (Callable(v, parent, node) && exists m: nat :: DeepAt(v, parent, node, m, n))
  }

  ghost predicate DeepAt(v: Nodes, parent: nat, node: nat, m: nat, n: nat)
    requires Callable(v, parent, node) && n > 0
    decreases n, 0
  {
    && Meets(v, parent, node, m)
    && forall w: Nodes :: Grown(WithChild(v, parent, node), w, |v.nodes|) ==> Deep(w, |v.nodes|, WithChild(v, parent, node).kids[node][m], n - 1)
  }

  lemma {:induction false} ChildFacts(v: Nodes, parent: nat, node: nat)
    requires Callable(v, parent, node)
    ensures var v1, k := WithChild(v, parent, node), |v.nodes|;
            && Grown(v, v1, parent) && Grown(v1, v1, k) && |v1.nodes| == k + 1 && v1.nodes[k].kind == TagNode && v1.owner[k] == parent
            && v1.kids[parent] == v.kids[parent] + [k] && v1.kids[k] == [] && (node != parent ==> v1.kids[node] == v.kids[node])
            && v1.nodes[node].kind == TagNode
  {
    var name := v.nodes[node].name;
    KidsInRange(v, parent);
    AppendedKid(v, parent, TagNode, name, "");
    AppendedAt(v, parent, TagNode, name, "", |v.nodes|);
    AppendedKept(v, parent, TagNode, name, "");
    ChangedGrown(v, WithChild(v, parent, node), parent);
    GrownNothing(WithChild(v, parent, node), |v.nodes|);
    assert KeptAt(v, WithChild(v, parent, node), parent, node);
  }

  /** Further growth below the new tag leaves the list of `node`, and the kinds in it, as they are. */
  lemma {:induction false} MeetsTag(v: Nodes, parent: nat, node: nat, m: nat)
    requires Callable(v, parent, node)
    requires var v1 := WithChild(v, parent, node);
             node < |v1.kids| && m < |v1.kids[node]| && v1.kids[node][m] < |v1.nodes| && v1.nodes[v1.kids[node][m]].kind == TagNode
    ensures Meets(v, parent, node, m)
  {
    var v1, k := WithChild(v, parent, node), |v.nodes|;
    ChildFacts(v, parent, node);
    var kid := v1.kids[node][m];
    forall w: Nodes | Grown(v1, w, k)
      ensures Callable(w, k, kid) && node < |w.kids| && m < |w.kids[node]| && w.kids[node][m] == kid
    {
      assert KeptAt(v1, w, k, k) && KeptAt(v1, w, k, kid);
      ListsKept(v1, w, k, node);
    }
  }

  lemma {:induction false} ReachesOn(v: Nodes, b: nat, p: nat, k: nat)
    requires Ok(v) && b < |v.nodes| && p < |v.nodes| && Reaches(v, b, p) && k in v.kids[p]
    ensures Reaches(v, b, k)
    decreases |v.nodes| - b
  {
    KidsInRange(v, b);
    if b == p {
      var m :| 0 <= m < |v.kids[p]| && v.kids[p][m] == k;
      assert Reaches(v, v.kids[b][m], k);
    } else {
      var m :| 0 <= m < |v.kids[b]| && Reaches(v, v.kids[b][m], p);
      ReachesOn(v, v.kids[b][m], p, k);
    }
  }

  lemma {:induction false} TagOnPath(v: Nodes, b: nat, c: nat)
    requires Ok(v) && b < |v.nodes| && c < |v.nodes| && Reaches(v, b, c) && v.nodes[c].kind == TagNode
    ensures v.nodes[b].kind == TagNode
  {
    if b != c { assert OkAt(v, b); }
  }

  /** Which child leads to the copy. */
  lemma {:induction false} NextInside(v: Nodes, parent: nat, node: nat) returns (m: nat)
    requires Callable(v, parent, node) && Reaches(v, node, parent)
    ensures Meets(v, parent, node, m)
    ensures var v1 := WithChild(v, parent, node);
            node < |v1.kids| && m < |v1.kids[node]| && forall w: Nodes :: Grown(v1, w, |v.nodes|) ==> Ok(w) && v1.kids[node][m] < |w.nodes| && Reaches(w, v1.kids[node][m], |v.nodes|)
  {
    var v1, k := WithChild(v, parent, node), |v.nodes|;
    ChildFacts(v, parent, node);
    if node == parent {
      m := |v.kids[node]|;
      assert v1.kids[node][m] == k && Reaches(v1, k, k);
    } else {
      KidsInRange(v, node);
      m :| 0 <= m < |v.kids[node]| && Reaches(v, v.kids[node][m], parent);
      ReachesSame(v, v1, v.kids[node][m], parent);
      assert v1.kids[parent][|v.kids[parent]|] == k;
      ReachesOn(v1, v.kids[node][m], parent, k);
    }
    var kid := v1.kids[node][m];
    TagOnPath(v1, kid, k);
    MeetsTag(v, parent, node, m);
    forall w: Nodes | Grown(v1, w, k) ensures Ok(w) && kid < |w.nodes| && Reaches(w, kid, k) { ReachesSame(v1, w, kid, k); }
  }

  /** A copy into itself nests deeper than any bound. */
  lemma {:induction false} InsideDeep(v: Nodes, parent: nat, node: nat, n: nat)
    requires Callable(v, parent, node) && Reaches(v, node, parent)
    ensures Deep(v, parent, node, n)
    decreases n
  {
    hide Grown; hide Reaches; hide WithChild; hide Meets; hide DeepAt;
    if n > 0 {
      var m := NextInside(v, parent, node);
      var kid := WithChild(v, parent, node).kids[node][m];
      forall w: Nodes | Grown(WithChild(v, parent, node), w, |v.nodes|) ensures Deep(w, |v.nodes|, kid, n - 1) {
        MetCallable(v, parent, node, m, w);
        InsideDeep(w, |v.nodes|, kid, n - 1);
      }
      DeepFrom(v, parent, node, m, n);
    }
  }

  lemma {:induction false} MetCallable(v: Nodes, parent: nat, node: nat, m: nat, w: Nodes)
    requires Callable(v, parent, node) && Meets(v, parent, node, m) && Grown(WithChild(v, parent, node), w, |v.nodes|)
    ensures var v1 := WithChild(v, parent, node);
            node < |v1.kids| && m < |v1.kids[node]| && Callable(w, |v.nodes|, v1.kids[node][m])
  {
    hide Grown; hide WithChild;
  }

  lemma {:induction false} DeepFrom(v: Nodes, parent: nat, node: nat, m: nat, n: nat)
    requires n > 0 && Callable(v, parent, node) && Meets(v, parent, node, m)
    requires forall w: Nodes :: Grown(WithChild(v, parent, node), w, |v.nodes|) ==> Deep(w, |v.nodes|, WithChild(v, parent, node).kids[node][m], n - 1)
    ensures DeepAt(v, parent, node, m, n)
  {
    hide Grown; hide WithChild; hide Deep;
  }

  function Height(t: Tree): nat
    decreases t, 0
  {
    match t
    case Text(_) => 0
    case Tag(_, _, kids) => 1 + HeightOfAll(kids)
  }

  function HeightOfAll(l: seq<Tree>): nat
    decreases l, 0
  {
    if l == [] then 0
    else
      var h, r := Height(l[0]), HeightOfAll(l[1..]);
      if h > r then h else r
  }

  lemma {:induction false} HeightAt(l: seq<Tree>, n: nat)
    requires n < |l|
    ensures Height(l[n]) <= HeightOfAll(l)
    decreases |l|
  {
    if n > 0 { HeightAt(l[1..], n - 1); }
  }

  lemma {:induction false} DeepNext(v: Nodes, parent: nat, node: nat, n: nat) returns (m: nat)
    requires n > 0 && Deep(v, parent, node, n)
    requires Callable(v, parent, node) && Grown(WithChild(v, parent, node), WithChild(v, parent, node), |v.nodes|)
    ensures var v1 := WithChild(v, parent, node);
            node < |v1.kids| && m < |v1.kids[node]| && Callable(v1, |v.nodes|, v1.kids[node][m]) && Deep(v1, |v.nodes|, v1.kids[node][m], n - 1)
  {
    hide Grown; hide WithChild; hide Meets;
    m :| DeepAt(v, parent, node, m, n);
    MetCallable(v, parent, node, m, WithChild(v, parent, node));
  }

  /** A child of a node that does not hold the place: it does not hold the copy, and is the tree it was. */
  lemma {:induction false} KidOutside(v: Nodes, parent: nat, node: nat, m: nat)
    requires Callable(v, parent, node) && !Reaches(v, node, parent) && m < |v.kids[node]|
    ensures var v1, k, kid := WithChild(v, parent, node), |v.nodes|, v.kids[node][m];
            && Ok(v1) && kid < |v.nodes| < |v1.nodes| && v1.nodes[kid].kind == v.nodes[kid].kind != AttribNode
            && !Reaches(v1, kid, k) && TreeOf(v1, kid) == TreeOf(v, kid) && Height(TreeOf(v, kid)) < Height(TreeOf(v, node))
  {
    hide TreeOf; hide TreesOf;
    var v1, k, kid := WithChild(v, parent, node), |v.nodes|, v.kids[node][m];
    ChildFacts(v, parent, node);
    KidsInRange(v, node);
    ApartDown(v, node, parent);
    KidFacts(v, node, m);
    ReachesSame(v, v1, kid, parent);
    if Reaches(v1, kid, k) { ReachesOwner(v1, kid, k); }
    assert node != parent;
    assert KeptAt(v, v1, parent, kid);
    GrownTree(v, v1, parent, kid);
    TreesAt(v, node, v.kids[node], m);
    HeightAt(KidTrees(v, node), m);
    HeightOfTag(v, node);
  }

  lemma {:induction false} HeightOfTag(v: Nodes, i: nat)
    requires Ok(v) && i < |v.nodes| && v.nodes[i].kind == TagNode
    ensures Height(TreeOf(v, i)) == 1 + HeightOfAll(KidTrees(v, i))
  {
    KidsInRange(v, i);
  }

  /** Any other copy nests as deep as the tree at most. */
  lemma {:induction false} OutsideShallow(v: Nodes, parent: nat, node: nat, n: nat)
    requires Callable(v, parent, node) && !Reaches(v, node, parent) && n > Height(TreeOf(v, node))
    ensures !Deep(v, parent, node, n)
    decreases n
  {
    if Deep(v, parent, node, n) {
      hide Deep; hide WithChild; hide Grown; hide TreeOf;
      ChildFacts(v, parent, node);
      var m := DeepNext(v, parent, node, n);
      assert node != parent by { if node == parent { SelfReaches(v, node); } }
      KidOutside(v, parent, node, m);
      OutsideShallow(WithChild(v, parent, node), |v.nodes|, v.kids[node][m], n - 1);
    }
  }

  lemma {:induction false} SelfReaches(v: Nodes, b: nat)
    requires Ok(v) && b < |v.nodes|
    ensures Reaches(v, b, b)
  {
  }

  /** xmlnode_insert_tag_node of any two tags: the recursion has no end exactly if the first is the second or below it. */
  lemma {:induction false} EndlessIff(v: Nodes, parent: nat, node: nat)
    requires Callable(v, parent, node)
    ensures (forall n :: Deep(v, parent, node, n)) <==> Reaches(v, node, parent)
  {
    if Reaches(v, node, parent) {
      forall n ensures Deep(v, parent, node, n) { InsideDeep(v, parent, node, n); }
    } else {
      OutsideShallow(v, parent, node, Height(TreeOf(v, node)) + 1);
    }
  }
}
