/**
 Trees made by the insert functions of libjabber/xmlnode.c: whatever is called
 on whatever nodes, a copy that xmlnode_dup makes of them is equal to them.
 */
module XmlDomInserts {
  import opened XmlValue
  import opened XmlTree
  import opened XmlNodes
  import opened XmlDom
  import opened XmlDomCopy

  /** The calls that make trees: xmlnode_new_tag, xmlnode_insert_tag, xmlnode_insert_cdata, xmlnode_put_attrib and
      xmlnode_insert_tag_node, the last with the tree at the node to copy. */
  datatype Call =
    | NewTag(name: string)
    | InsertTag(at: nat, name: string)
    | InsertText(at: nat, text: string)
    | PutAttribute(at: nat, name: string, value: string)
    | InsertCopy(at: nat, tree: Tree)

  /** What the calls do to the table, as the methods of the class and InsertTagNode promise it. */
  ghost predicate Made(v: Nodes, w: Nodes, call: Call)
  {
    && Ok(v) && Ok(w)
    && match call
       case NewTag(name) => w == Rooted(v, name)
       case InsertTag(c, name) => At(v, w, c) && AttPairs(w, c) == AttPairs(v, c) && KidTrees(w, c) == KidTrees(v, c) + [Tree.Tag(name, [], [])]
       case InsertText(c, text) => At(v, w, c) && AttPairs(w, c) == AttPairs(v, c) && KidTrees(w, c) == AddText(KidTrees(v, c), text)
       case PutAttribute(c, name, value) => At(v, w, c) && AttPairs(w, c) == PutAtt(AttPairs(v, c), name, value) && KidTrees(w, c) == KidTrees(v, c)
       case InsertCopy(c, t) => At(v, w, c) && t.Tag? && AttPairs(w, c) == AttPairs(v, c) && KidTrees(w, c) == KidTrees(v, c) + [Merged(t)]
  }

  ghost predicate At(v: Nodes, w: Nodes, c: nat)
  {
    Grown(v, w, c) && v.nodes[c].kind == TagNode
  }

  /** The lists at one node have no neighbouring texts and no repeated names, in it and below. */
  ghost predicate SeparateAt(v: Nodes, c: nat)
    requires Ok(v) && c < |v.nodes|
  {
    Unique(AttPairs(v, c)) && SeparateAll(KidTrees(v, c))
  }

  lemma {:induction false} SeparateTree(v: Nodes, b: nat)
    requires Ok(v) && b < |v.nodes| && v.nodes[b].kind == TagNode
    ensures Separate(TreeOf(v, b)) <==> SeparateAt(v, b)
  {
    KidsInRange(v, b);
  }

  lemma {:induction false} SeparateOne(l: seq<Tree>, n: nat)
    requires SeparateAll(l) && n < |l|
    ensures Separate(l[n])
    decreases |l|
  {
    if n > 0 { SeparateOne(l[1..], n - 1); }
  }

  /** Trees that are in order can take the place of trees, text for text and tag for tag. */
  lemma {:induction false} SeparateEach(l: seq<Tree>, m: seq<Tree>)
    requires |l| == |m| && SeparateAll(l) && forall n :: 0 <= n < |l| ==> Separate(m[n]) && (m[n].Text? <==> l[n].Text?)
    ensures SeparateAll(m)
    decreases |l|
  {
    hide Separate;
    if l != [] { SeparateEach(l[1..], m[1..]); }
  }

  lemma {:induction false} TextOrTag(v: Nodes, k: nat)
    requires Ok(v) && k < |v.nodes| && v.nodes[k].kind != AttribNode
    ensures TreeOf(v, k).Text? <==> v.nodes[k].kind == CdataNode
    ensures v.nodes[k].kind == CdataNode ==> Separate(TreeOf(v, k))
  {
  }

  /** A change at one node that keeps its lists in order keeps every tree in order, that of the node or any other. */
  lemma {:induction false} SeparateKept(v: Nodes, w: Nodes, c: nat, b: nat)
    requires At(v, w, c) && (SeparateAt(v, c) ==> SeparateAt(w, c))
    requires b < |v.nodes| && v.nodes[b].kind == TagNode && Separate(TreeOf(v, b))
    ensures w.nodes[b].kind == TagNode && Separate(TreeOf(w, b))
    decreases |v.nodes| - b
  {
    hide TreeOf; hide TreesOf; hide Separate; hide SeparateAll; hide Unique; hide AttPairs;
    assert KeptAt(v, w, c, b);
    SeparateTree(v, b);
    SeparateTree(w, b);
    if b != c {
      assert SameAt(v, w, b);
      KidsInRange(v, b);
      KidsInRange(w, b);
      var l, p, q := v.kids[b], KidTrees(v, b), KidTrees(w, b);
      forall n | 0 <= n < |l| ensures Separate(q[n]) && (q[n].Text? <==> p[n].Text?) {
        TreesAt(v, b, l, n);
        TreesAt(w, b, l, n);
        assert KeptAt(v, w, c, l[n]);
        TextOrTag(v, l[n]);
        TextOrTag(w, l[n]);
        SeparateOne(p, n);
        if v.nodes[l[n]].kind == TagNode { SeparateKept(v, w, c, l[n]); }
      }
      SeparateEach(p, q);
    }
  }

  /** Every call keeps the lists at its node in order. */
  lemma {:induction false} CallInOrder(v: Nodes, w: Nodes, call: Call)
    requires Made(v, w, call) && !call.NewTag? && SeparateAt(v, call.at)
    ensures SeparateAt(w, call.at)
  {
    hide AttPairs; hide KidTrees; hide Unique; hide SeparateAll; hide Merged;
    var kids := KidTrees(v, call.at);
    match call
    case InsertTag(_, name) => InsertsKeepSeparate(kids, "", name);
    case InsertText(_, text) => InsertsKeepSeparate(kids, text, "");
    case PutAttribute(c, name, value) => PutKeepsUnique(AttPairs(v, c), name, value);
    case InsertCopy(_, t) =>
      MergedSeparate(t);
      SeparateLast(kids, Merged(t));
  }

  /** No call puts any tree out of order, whichever node it is made at. */
  lemma {:induction false} CallKeeps(v: Nodes, w: Nodes, call: Call, x: nat)
    requires Made(v, w, call) && x < |v.nodes| && v.nodes[x].kind == TagNode && Separate(TreeOf(v, x))
    ensures x < |w.nodes| && w.nodes[x].kind == TagNode && Separate(TreeOf(w, x))
  {
    hide TreeOf; hide Separate; hide SeparateAt; hide AttPairs; hide KidTrees;
    if call.NewTag? {
      RootedOk(v, call.name);
      RootedTree(v, w, x);
    } else {
      if SeparateAt(v, call.at) { CallInOrder(v, w, call); }
      SeparateKept(v, w, call.at, x);
    }
  }

  /** Tables, each made from the one before by a call. */
  ghost predicate MadeBy(tables: seq<Nodes>, calls: seq<Call>)
  {
    |tables| == |calls| + 1 && forall n :: 0 <= n < |calls| ==> Made(tables[n], tables[n + 1], calls[n])
  }

  /** A tag that some call made is in order after any further calls. */
  lemma {:induction false} CallsKeep(tables: seq<Nodes>, calls: seq<Call>, n: nat, m: nat)
    requires MadeBy(tables, calls) && n < m <= |calls| && calls[n].NewTag?
    ensures var x := |tables[n].nodes|; var w := tables[m];
            Ok(w) && x < |w.nodes| && w.nodes[x].kind == TagNode && Separate(TreeOf(w, x))
    decreases m
  {
    hide Separate;
    assert Made(tables[m - 1], tables[m], calls[m - 1]);
    var x := |tables[n].nodes|;
    if m == n + 1 {
      NewTagInOrder(tables[n], calls[n].name);
    } else {
      CallsKeep(tables, calls, n, m - 1);
      CallKeeps(tables[m - 1], tables[m], calls[m - 1], x);
    }
  }

  lemma {:induction false} NewTagInOrder(v: Nodes, name: string)
    requires Ok(v)
    ensures var w := Rooted(v, name); var x := |v.nodes|;
            Ok(w) && x < |w.nodes| && w.nodes[x].kind == TagNode && Separate(TreeOf(w, x))
  {
    RootedOk(v, name);
    SeparateTree(Rooted(v, name), |v.nodes|);
  }

  /** The calls on the class are those calls. */
  method MakeCall(d: Dom, call: Call, node: nat) returns (k: nat)
    requires d.Valid() && (!call.NewTag? ==> call.at < |d.nodes| && d.nodes[call.at].kind == TagNode)
    requires call.InsertCopy? ==> node < |d.nodes| && d.nodes[node].kind == TagNode && !Reaches(d.View(), node, call.at) && call.tree == TreeOf(d.View(), node)
    modifies d
    ensures d.Valid() && Made(old(d.View()), d.View(), call)
  {
    hide TreeOf; hide KidTrees; hide AttPairs; hide Grown; hide Merged; hide Appended;
    ghost var v := d.View();
    k := 0;
    match call {
      case NewTag(name) =>
        k := d.NewTag(name);
      case InsertTag(at, name) =>
        TagAppended(v, at, name);
        k := d.Insert(at, name, TagNode, "");
      case InsertText(at, text) => k := d.InsertCdata(at, text);
      case PutAttribute(at, name, value) => d.PutAttrib(at, name, value);
      case InsertCopy(at, tree) =>
        KindOfTree(v, node, tree);
        InsertTagNode(d, at, node, tree);
    }
  }

  lemma {:induction false} TagAppended(v: Nodes, c: nat, name: string)
    requires Ok(v) && c < |v.nodes| && v.nodes[c].kind == TagNode
    ensures forall m :: 0 <= m < |v.kids[c]| ==> v.kids[c][m] < |v.nodes|
    ensures var w := Appended(v, c, TagNode, name, "");
            At(v, w, c) && AttPairs(w, c) == AttPairs(v, c) && KidTrees(w, c) == KidTrees(v, c) + [Tree.Tag(name, [], [])]
  {
    hide Appended; hide TreesOf; hide SameAt;
    AppendedKid(v, c, TagNode, name, "");
    AppendedKept(v, c, TagNode, name, "");
    ChangedGrown(v, Appended(v, c, TagNode, name, ""), c);
    KidsInRange(v, c);
  }

  /** xmlnode_dup, and xmlnode_cmp of the node, with the siblings behind it, and the copy: 0 exactly if the node has no
      sibling behind it and no two texts are neighbours and no attribute name comes twice in it. */
  method DupCompare(d: Dom, x: nat, ghost l: seq<nat>) returns (k: nat, r: int)
    requires d.Valid() && Listed(d.View(), l) && l != [] && l[0] == x < |d.nodes| && d.nodes[x].kind == TagNode
    requires forall n :: 0 <= n < |l| ==> l[n] < |d.nodes| && d.nodes[l[n]].kind != AttribNode
    modifies d
    ensures d.Valid() && |old(d.nodes)| == k < |d.nodes| && d.nodes[k].kind == TagNode
    ensures r == 0 <==> |l| == 1 && Separate(TreeOf(old(d.View()), x))
  {
    hide TreeOf; hide Separate; hide Merged;
    ghost var v := d.View();
    k := Dup(d, x);
    ghost var w := d.View();
    StillListed(v, w, l);
    assert d.nodes[k].next == None && Listed(w, [k]);
    r := Compare(d, Some(x), Some(k), l, [k]);
    MergedSame(TreeOf(v, x));
    assert ItemsOf(w, l)[0] == TreeItem(TreeOf(w, x)) && ItemsOf(w, [k]) == [TreeItem(TreeOf(w, k))];
  }

  lemma {:induction false} StillListed(v: Nodes, w: Nodes, l: seq<nat>)
    requires Listed(v, l) && Ok(w) && |v.nodes| <= |w.nodes|
    requires forall i :: 0 <= i < |v.nodes| ==> w.nodes[i].next == v.nodes[i].next
    ensures Listed(w, l)
  {
    forall n | 0 <= n < |l| ensures ListedAt(w, l, n) { assert ListedAt(v, l, n); }
  }

  /** The copy of a tag that was made by any calls, and has no sibling behind it, compares equal to it. */
  method DupOfMade(d: Dom, x: nat, ghost tables: seq<Nodes>, ghost calls: seq<Call>, ghost n: nat) returns (k: nat, r: int)
    requires d.Valid() && MadeBy(tables, calls) && n < |calls| && calls[n].NewTag? && x == |tables[n].nodes|
    requires d.View() == tables[|calls|] && x < |d.nodes| && d.nodes[x].next == None
    modifies d
    ensures d.Valid() && r == 0
  {
    hide TreeOf; hide Separate; hide Made;
    CallsKeep(tables, calls, n, |calls|);
    assert Listed(d.View(), [x]) by { assert ListedAt(d.View(), [x], 0); }
    k, r := DupCompare(d, x, [x]);
  }
}
