/**
 The callbacks of libjabber/expat.c on the DOM, and xmlnode_str.

 The callbacks only keep the current node; the elements around it are found by
 their parent links.  They are proved to do what `Build` of XmlTree says.
 */
module XmlDomBuild {
  import opened XmlValue
  import opened XmlContent
  import opened XmlChunks
  import opened XmlNesting
  import opened XmlTree
  import opened XmlBuilt
  import opened XmlNodes
  import opened XmlDom
  import opened XmlDomCopy
  import opened XmlParser

  /** The elements around the current node, outermost first: each is the last child of the one before. */
  ghost predicate OpenPath(v: Nodes, path: seq<nat>)
  {
    && Ok(v)
    && (forall n :: 0 <= n < |path| ==> path[n] < |v.nodes| && v.nodes[path[n]].kind == TagNode)
    && (path != [] ==> v.owner[path[0]] == -1 && v.nodes[path[0]].parent == None)
    && forall n :: 0 <= n < |path| - 1 ==> OpenAt(v, path[n], path[n + 1])
  }

  ghost predicate OpenAt(v: Nodes, i: nat, k: nat)
  {
    i < |v.nodes| && i < |v.kids| && v.kids[i] != [] && v.kids[i][|v.kids[i]| - 1] == k
  }

  /** What an open element holds: all its children, but for the one that is still open. */
  ghost predicate Holding(v: Nodes, i: nat, last: bool, f: Frame)
    requires Ok(v)
  {
    && i < |v.nodes| && v.nodes[i].name == f.name && AttPairs(v, i) == f.atts
    && if last then KidTrees(v, i) == f.kids else KidTrees(v, i) != [] && KidTrees(v, i)[..|KidTrees(v, i)| - 1] == f.kids
  }

  ghost predicate Represents(v: Nodes, path: seq<nat>, stack: seq<Frame>)
  {
    && OpenPath(v, path) && |path| == |stack|
    && forall n :: 0 <= n < |path| ==> Holding(v, path[n], n == |path| - 1, stack[n])
  }

  lemma {:induction false} PathRises(v: Nodes, path: seq<nat>, n: nat)
    requires OpenPath(v, path) && n + 1 < |path|
    ensures path[n] < path[n + 1] && v.owner[path[n + 1]] == path[n] && v.nodes[path[n + 1]].parent == Some(path[n])
  {
    assert OpenAt(v, path[n], path[n + 1]);
    KidFacts(v, path[n], |v.kids[path[n]]| - 1);
  }

  /** Only the elements of the path hold its nodes. */
  lemma {:induction false} HoldsOnPath(v: Nodes, path: seq<nat>, b: nat, n: nat)
    requires OpenPath(v, path) && n < |path| && Holds(v, b, path[n])
    ensures b in path[..n + 1]
    decreases n
  {
    if b == path[n] {
      assert path[..n + 1][n] == b;
    } else if n > 0 {
      PathRises(v, path, n - 1);
      HoldsOnPath(v, path, b, n - 1);
    }
  }

  /** A child that is closed does not hold the current node. */
  lemma {:induction false} ClosedApart(v: Nodes, path: seq<nat>, n: nat, m: nat)
    requires OpenPath(v, path) && n < |path| && m < |v.kids[path[n]]| && (n + 1 < |path| ==> m < |v.kids[path[n]]| - 1)
    ensures var b := v.kids[path[n]][m]; var c := path[|path| - 1];
            b < |v.nodes| && !Reaches(v, b, c) && (n + 1 < |path| ==> !IsTextOf(v, b, c))
  {
    var i := path[n];
    var b := v.kids[i][m];
    KidFacts(v, i, m);
    if Reaches(v, b, path[|path| - 1]) {
      ReachesHolds(v, b, path[|path| - 1]);
      HoldsOnPath(v, path, b, |path| - 1);
      var e :| 0 <= e < |path| && path[e] == b;
      assert e > 0;
      PathRises(v, path, e - 1);
      assert path[e - 1] == i;
      SameOnPath(v, path, e - 1, n);
      assert OpenAt(v, i, path[n + 1]);
      Ordered(v.nodes, v.kids[i], m, |v.kids[i]| - 1) by { assert OkAt(v, i); }
    }
    if n + 1 < |path| { PathOrder(v, path, n, |path| - 1); }
  }

  lemma {:induction false} PathOrder(v: Nodes, path: seq<nat>, a: nat, b: nat)
    requires OpenPath(v, path) && a < b < |path|
    ensures path[a] < path[b]
    decreases b - a
  {
    PathRises(v, path, b - 1);
    if a < b - 1 { PathOrder(v, path, a, b - 1); }
  }

  lemma {:induction false} SameOnPath(v: Nodes, path: seq<nat>, a: nat, b: nat)
    requires OpenPath(v, path) && a < |path| && b < |path| && path[a] == path[b]
    ensures a == b
  {
    if a < b { PathOrder(v, path, a, b); } else if b < a { PathOrder(v, path, b, a); }
  }

  /** Growth at the current node leaves the elements around it as they were. */
  lemma {:induction false} AroundKept(v: Nodes, w: Nodes, path: seq<nat>, n: nat, f: Frame)
    requires OpenPath(v, path) && n + 1 < |path| && Grown(v, w, path[|path| - 1]) && Holding(v, path[n], false, f)
    ensures Holding(w, path[n], false, f) && OpenAt(w, path[n], path[n + 1])
  {
    hide TreeOf; hide TreesOf; hide Reaches;
    var i, c := path[n], path[|path| - 1];
    PathOrder(v, path, n, |path| - 1);
    ListsKept(v, w, c, i);
    KidTreesAre(v, i);
    KidTreesAre(w, i);
    assert OpenAt(v, i, path[n + 1]);
    var l := v.kids[i];
    forall m | 0 <= m < |l| - 1 ensures !Reaches(v, l[m], c) && !IsTextOf(v, l[m], c) { ClosedApart(v, path, n, m); }
    FrontTrees(v, w, c, i, l);
  }

  lemma {:induction false} FrontTrees(v: Nodes, w: Nodes, c: nat, i: nat, l: seq<nat>)
    requires Grown(v, w, c) && i < |v.nodes| && l != [] && Above(v, i, l) && Above(w, i, l)
    requires forall m :: 0 <= m < |l| - 1 ==> !Reaches(v, l[m], c) && !IsTextOf(v, l[m], c)
    ensures TreesOf(w, i, l)[..|l| - 1] == TreesOf(v, i, l)[..|l| - 1]
  {
    GrownTrees(v, w, c, i, l[..|l| - 1]);
  }

  lemma {:induction false} PathKept(v: Nodes, w: Nodes, path: seq<nat>, stack: seq<Frame>, n: nat)
    requires Represents(v, path, stack) && path != [] && Grown(v, w, path[|path| - 1]) && n + 1 < |path|
    ensures Holding(w, path[n], false, stack[n]) && OpenAt(w, path[n], path[n + 1])
  {
    assert Holding(v, path[n], false, stack[n]);
    AroundKept(v, w, path, n, stack[n]);
  }

  /** After a change at the current node that changes what it holds from `f` to `f'`. */
  lemma {:induction false} CurrentChanged(v: Nodes, w: Nodes, path: seq<nat>, stack: seq<Frame>, f': Frame)
    requires Represents(v, path, stack) && path != [] && Grown(v, w, path[|path| - 1]) && Holding(w, path[|path| - 1], true, f')
    ensures Represents(w, path, stack[..|stack| - 1] + [f'])
  {
    var stack' := stack[..|stack| - 1] + [f'];
    forall n | 0 <= n < |path| ensures w.nodes[path[n]].kind == TagNode && w.nodes[path[n]].parent == v.nodes[path[n]].parent { assert KeptAt(v, w, path[|path| - 1], path[n]); }
    forall n | 0 <= n < |path| - 1 ensures OpenAt(w, path[n], path[n + 1]) { PathKept(v, w, path, stack, n); }
    forall n | 0 <= n < |path| ensures Holding(w, path[n], n == |path| - 1, stack'[n]) {
      if n < |path| - 1 { PathKept(v, w, path, stack, n); }
    }
  }

  /** A new element at the end of the current node's children becomes the current node. */
  lemma {:induction false} CurrentPushed(v: Nodes, w: Nodes, path: seq<nat>, stack: seq<Frame>, k: nat, f: Frame)
    requires Represents(v, path, stack) && path != [] && Grown(v, w, path[|path| - 1])
    requires var c := path[|path| - 1];
             && OpenAt(w, c, k) && AttPairs(w, c) == AttPairs(v, c)
             && KidTrees(w, c) != [] && KidTrees(w, c)[..|KidTrees(w, c)| - 1] == KidTrees(v, c)
    requires Holding(w, k, true, f) && w.nodes[k].kind == TagNode
    ensures Represents(w, path + [k], stack + [f])
  {
    var path', stack' := path + [k], stack + [f];
    var top := |path| - 1;
    forall n | 0 <= n < |path| ensures w.nodes[path[n]].kind == TagNode && w.nodes[path[n]].parent == v.nodes[path[n]].parent { assert KeptAt(v, w, path[|path| - 1], path[n]); }
    assert Holding(v, path[top], true, stack[top]);
    forall n | 0 <= n < |path'| - 1 ensures OpenAt(w, path'[n], path'[n + 1]) { if n < top { PathKept(v, w, path, stack, n); } }
    forall n | 0 <= n < |path'| ensures Holding(w, path'[n], n == |path'| - 1, stack'[n]) {
      if n < top { PathKept(v, w, path, stack, n); } else if n == top { assert KeptAt(v, w, path[|path| - 1], path[n]); }
    }
  }

  /** The current element closed: it is the last of its parent's children. */
  lemma {:induction false} CurrentPopped(v: Nodes, path: seq<nat>, stack: seq<Frame>)
    requires Represents(v, path, stack) && |path| > 1
    ensures var top, below := stack[|stack| - 1], stack[|stack| - 2];
            Represents(v, path[..|path| - 1], stack[..|stack| - 2] + [below.(kids := below.kids + [Tree.Tag(top.name, top.atts, top.kids)])])
  {
    var n := |path| - 2;
    var i, k := path[n], path[n + 1];
    var top, below := stack[n + 1], stack[n];
    assert OpenAt(v, i, k) && Holding(v, i, false, below) && Holding(v, k, true, top);
    PathRises(v, path, n);
    KidTreesAre(v, i);
    KidsInRange(v, k);
    assert TreeOf(v, k) == Tree.Tag(top.name, top.atts, top.kids);
    TreesAt(v, i, v.kids[i], |v.kids[i]| - 1);
    var ts := KidTrees(v, i);
    assert ts == ts[..|ts| - 1] + [ts[|ts| - 1]];
    var path' := path[..|path| - 1];
    forall m | 0 <= m < |path'| - 1 ensures OpenAt(v, path'[m], path'[m + 1]) { assert OpenAt(v, path[m], path[m + 1]); }
    forall m | 0 <= m < |path'| - 1 ensures Holding(v, path'[m], false, stack[m]) { assert Holding(v, path[m], false, stack[m]); }
  }

  lemma {:induction false} RootPushed(v: Nodes, name: string)
    requires Ok(v)
    ensures Represents(Rooted(v, name), [|v.nodes|], [Frame(name, [], [])])
  {
    RootedOk(v, name);
  }

  // ---- The callbacks ----

  ghost function Current(path: seq<nat>): Option<nat> { if path == [] then None else Some(path[|path| - 1]) }

  /** xmlnode_put_expat_attribs. */
  method PutAttributes(d: Dom, node: nat, atts: seq<(string, string)>)
    requires d.Valid() && node < |d.nodes| && d.nodes[node].kind == TagNode
    modifies d
    ensures d.Valid() && Grown(old(d.View()), d.View(), node)
    ensures KidTrees(d.View(), node) == KidTrees(old(d.View()), node) && AttPairs(d.View(), node) == PutAtts(AttPairs(old(d.View()), node), atts)
  {
    hide *;
    ghost var v := d.View();
    ViewOf(d);
    GrownNothing(v, node);
    ListOf(atts);
    var i := 0;
    while i < |atts|
      invariant i <= |atts| && d.Valid() && Ok(d.View()) && d.View() == Nodes(d.nodes, d.kids, d.atts, d.owner)
      invariant node < |d.nodes| && d.nodes[node].kind == TagNode && Grown(v, d.View(), node) && KidTrees(d.View(), node) == KidTrees(v, node)
      invariant PutAtts(AttPairs(v, node), atts) == PutAtts(AttPairs(d.View(), node), atts[i..])
    {
      ghost var w := d.View();
      d.PutAttrib(node, atts[i].0, atts[i].1);
      ViewOf(d);
      PutNext(AttPairs(w, node), atts, i);
      GrownTwice(v, w, d.View(), node, node);
      GrownKind(w, d.View(), node);
      i := i + 1;
    }
    assert atts[i..] == [];
    PutNone(AttPairs(d.View(), node));
  }

  lemma {:induction false} GrownKind(v: Nodes, w: Nodes, i: nat)
    requires Grown(v, w, i)
    ensures i < |w.nodes| && w.nodes[i].kind == v.nodes[i].kind && w.nodes[i].name == v.nodes[i].name && w.nodes[i].parent == v.nodes[i].parent
  {
    assert KeptAt(v, w, i, i);
  }

  lemma {:induction false} CurrentFacts(v: Nodes, path: seq<nat>, stack: seq<Frame>)
    requires Represents(v, path, stack) && path != []
    ensures var c, top := path[|path| - 1], stack[|stack| - 1];
            Ok(v) && |path| == |stack| && c < |v.nodes| && v.nodes[c].kind == TagNode && v.nodes[c].name == top.name && AttPairs(v, c) == top.atts && KidTrees(v, c) == top.kids
  {
    assert Holding(v, path[|path| - 1], true, stack[|stack| - 1]);
  }

  lemma {:induction false} NewTagStep(v: Nodes, c: nat, name: string)
    requires Ok(v) && c < |v.nodes| && v.nodes[c].kind == TagNode
    ensures forall m :: 0 <= m < |v.kids[c]| ==> v.kids[c][m] < |v.nodes|
    ensures var w := Appended(v, c, TagNode, name, ""); var k := |v.nodes|;
            && Grown(v, w, c) && OpenAt(w, c, k) && AttPairs(w, c) == AttPairs(v, c)
            && k < |w.nodes| && w.nodes[k].kind == TagNode && w.nodes[k].name == name && w.owner[k] == c
            && KidTrees(w, c) != [] && KidTrees(w, c)[..|KidTrees(w, c)| - 1] == KidTrees(v, c) && KidTrees(w, k) == [] && AttPairs(w, k) == []
  {
    AppendedKid(v, c, TagNode, name, "");
    AppendedKept(v, c, TagNode, name, "");
    AppendedAt(v, c, TagNode, name, "", |v.nodes|);
    ChangedGrown(v, Appended(v, c, TagNode, name, ""), c);
  }

  lemma {:induction false} HoldingNew(v: Nodes, k: nat, f: Frame)
    requires Ok(v) && k < |v.nodes| && v.nodes[k].name == f.name && AttPairs(v, k) == f.atts && KidTrees(v, k) == f.kids
    ensures Holding(v, k, true, f)
  {
  }

  /** expat_startElement: the tag is inserted under the current node, or is the root, and becomes the current node. */
  method StartElementCallback(d: Dom, current: Option<nat>, name: string, atts: seq<(string, string)>, ghost path: seq<nat>, ghost stack: seq<Frame>)
    returns (x: Option<nat>, ghost path': seq<nat>)
    requires d.Valid() && Represents(d.View(), path, stack) && current == Current(path)
    modifies d
    ensures d.Valid() && x == Current(path') && Represents(d.View(), path', BuildStep(stack, StartElement(name, atts)))
  {
    hide *;
    ghost var v := d.View();
    ViewOf(d);
    CurrentIs(path);
    StackIs(v, path, stack);
    ghost var f := Frame(name, [], []);
    var k: nat;
    if current.None? {
      RootPushed(v, name);
      RootFacts(v, name);
      k := d.NewTag(name);
      path' := [k];
    } else {
      CurrentFacts(v, path, stack);
      NewTagStep(v, current.value, name);
      k := d.Insert(current.value, name, TagNode, "");
      ViewOf(d);
      HoldingNew(d.View(), k, f);
      CurrentPushed(v, d.View(), path, stack, k, f);
      path' := path + [k];
    }
    ghost var stack' := stack + [f];
    ghost var w := d.View();
    ViewOf(d);
    assert Represents(w, path', stack') by { if path == [] { assert stack + [f] == [f]; } }
    CurrentFacts(w, path', stack');
    PutAttributes(d, k, atts);
    ViewOf(d);
    GrownKind(w, d.View(), k);
    HoldingNew(d.View(), k, Frame(name, PutAtts([], atts), []));
    CurrentChanged(w, d.View(), path', stack', Frame(name, PutAtts([], atts), []));
    assert stack'[..|stack|] == stack;
    StartStep(stack, name, atts);
    CurrentIs(path');
    x := Some(k);
  }

  lemma {:induction false} CurrentIs(path: seq<nat>)
    ensures path == [] ==> Current(path) == None
    ensures path != [] ==> Current(path) == Some(path[|path| - 1])
  {
  }

  lemma {:induction false} StackIs(v: Nodes, path: seq<nat>, stack: seq<Frame>)
    requires Represents(v, path, stack)
    ensures |path| == |stack|
  {
  }

  lemma {:induction false} StartStep(stack: seq<Frame>, name: string, atts: seq<(string, string)>)
    ensures BuildStep(stack, StartElement(name, atts)) == stack + [Frame(name, PutAtts([], atts), [])]
  {
  }

  /** expat_endElement: back to the parent, but not from the root. */
  method EndElementCallback(d: Dom, current: Option<nat>, name: string, ghost path: seq<nat>, ghost stack: seq<Frame>)
    returns (x: Option<nat>, ghost path': seq<nat>)
    requires d.Valid() && Represents(d.View(), path, stack) && current == Current(path) && path != []
    ensures x == Current(path') && Represents(d.View(), path', BuildStep(stack, EndElement(name)))
  {
    ghost var v := d.View();
    CurrentFacts(v, path, stack);
    var up := d.nodes[current.value].parent;
    if up.Some? {
      if |path| > 1 { PathRises(v, path, |path| - 2); }
      CurrentPopped(v, path, stack);
      assert stack[..|stack| - 1][..|stack| - 2] == stack[..|stack| - 2];
      path' := path[..|path| - 1];
      x := up;
    } else {
      if |path| > 1 { PathRises(v, path, |path| - 2); }
      path' := path;
      x := current;
    }
  }

  /** expat_charData. */
  method CharDataCallback(d: Dom, current: Option<nat>, c: char, ghost path: seq<nat>, ghost stack: seq<Frame>)
    requires d.Valid() && Represents(d.View(), path, stack) && current == Current(path)
    modifies d
    ensures d.Valid() && Represents(d.View(), path, BuildStep(stack, CharByte(c)))
  {
    hide *;
    ghost var v := d.View();
    ViewOf(d);
    CurrentIs(path);
    StackIs(v, path, stack);
    TextStepIs(stack, c);
    if current.None? { return; }
    CurrentFacts(v, path, stack);
    var _ := d.InsertCdata(current.value, [c]);
    ViewOf(d);
    ghost var top := stack[|stack| - 1];
    ghost var f := top.(kids := AddText(top.kids, [c]));
    GrownKind(v, d.View(), current.value);
    HoldingNew(d.View(), current.value, f);
    CurrentChanged(v, d.View(), path, stack, f);
  }

  lemma {:induction false} TextStepIs(stack: seq<Frame>, c: char)
    ensures stack == [] ==> BuildStep(stack, CharByte(c)) == []
    ensures stack != [] ==> var top := stack[|stack| - 1]; BuildStep(stack, CharByte(c)) == stack[..|stack| - 1] + [top.(kids := AddText(top.kids, [c]))]
  {
  }

  /** The callbacks, one event after the other. */
  method RunCallbacks(d: Dom, events: seq<Event>) returns (x: Option<nat>, ghost path: seq<nat>)
    requires d.Valid()
    modifies d
    ensures d.Valid() && x == Current(path) && Represents(d.View(), path, Build([], events))
  {
    hide BuildStep; hide Ok;
    path := [];
    ghost var stack: seq<Frame> := [];
    x := None;
    assert Represents(d.View(), path, stack);
    hide Represents;
    assert events[0..] == events;
    var i := 0;
    while i < |events|
      invariant i <= |events| && d.Valid() && x == Current(path) && Represents(d.View(), path, stack)
      invariant Build([], events) == Build(stack, events[i..])
    {
      assert events[i..][0] == events[i] && events[i..][1..] == events[i + 1..];
      StackIs(d.View(), path, stack);
      match events[i] {
        case StartElement(name, atts) => x, path := StartElementCallback(d, x, name, atts, path, stack);
        case CharByte(c) => CharDataCallback(d, x, c, path, stack);
        case EndElement(name) =>
          if x.Some? { x, path := EndElementCallback(d, x, name, path, stack); } else { NoElement(name); }
      }
      stack := BuildStep(stack, events[i]);
      i := i + 1;
    }
  }

  lemma {:induction false} NoElement(name: string)
    ensures BuildStep([], EndElement(name)) == []
  {
  }

  /** xmlnode_str: NULL for a document that does not parse, and otherwise the root of a tree whose events are the document's.
      The callbacks are run on the events of the whole parse. */
  method XmlnodeStr(env: Env, dtd: Dtd, str: string) returns (d: Dom, x: Option<nat>)
    requires TableLaws(env) && RoleLaws(env)
    ensures fresh(d) && d.Valid()
    ensures var r := XmlChunks.Parse(env, PrologPhase, Initial(dtd), [], "", [], str);
            if r.outcome.Stopped? then
              x.Some? && x.value < |d.nodes| && d.nodes[x.value].kind == TagNode && EventsOf(TreeOf(d.View(), x.value)) == r.events
              && [Frame(d.nodes[x.value].name, AttPairs(d.View(), x.value), KidTrees(d.View(), x.value))] == Build([], r.events)
            else x == None
  {
    hide RoleLaws; hide XmlChunks.Parse; hide Build; hide EventsOf; hide Represents;
    var p := new Parser(env, dtd);
    d := new Dom();
    var ok := p.ParseDocument([], str);
    if !ok { return d, None; }
    ghost var path;
    x, path := RunCallbacks(d, p.events);
    DocumentBuilt(env, Initial(dtd), [], str);
    RootIs(d.View(), path, Build([], p.events));
  }

  lemma {:induction false} RootIs(v: Nodes, path: seq<nat>, stack: seq<Frame>)
    requires Represents(v, path, stack) && |stack| == 1
    ensures Ok(v) && |path| == 1 && path[0] < |v.nodes| && v.nodes[path[0]].kind == TagNode
    ensures var f := stack[0]; v.nodes[path[0]].name == f.name && AttPairs(v, path[0]) == f.atts && KidTrees(v, path[0]) == f.kids
                               && TreeOf(v, path[0]) == Tree.Tag(f.name, f.atts, f.kids)
  {
    CurrentFacts(v, path, stack);
    KidsInRange(v, path[0]);
  }
}
