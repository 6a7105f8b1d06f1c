/**
 What reads the DOM: the printer of libjabber/xmlnode.c, which walks the links
 with a level and a direction instead of a stack, and xmlnode_cmp.
 */
module XmlDomRead {
  import opened XmlValue
  import opened XmlTree
  import opened XmlNodes
  import opened XmlStr
  import opened XmlDom

  // ---- The printer ----

  lemma {:induction false} PrintAttsLast(atts: seq<(string, string)>, a: (string, string))
    ensures PrintAtts(atts + [a]) == PrintAtts(atts) + (" " + a.0 + "='" + Escape(a.1) + "'")
    decreases |atts|
  {
    hide Escape;
    var p := " " + a.0 + "='" + Escape(a.1) + "'";
    if atts == [] {
      assert ([] + [a])[1..] == [];
      assert p + "" == p == "" + p;
    } else {
      assert (atts + [a])[1..] == atts[1..] + [a];
      PrintAttsLast(atts[1..], a);
      var q := " " + atts[0].0 + "='" + Escape(atts[0].1) + "'";
      assert q + (PrintAtts(atts[1..]) + p) == q + PrintAtts(atts[1..]) + p;
    }
  }

  /** The start tag of _xmlnode_tag2str, with `flag` 0 or 1. */
  method StartTag2Str(d: Dom, node: nat, flag: nat) returns (s: string)
    requires d.Valid() && node < |d.nodes| && flag <= 1
    ensures s == OpenTag(d.nodes[node].name, AttPairs(d.View(), node), flag == 0)
  {
    hide Escape;
    ghost var l := d.atts[node];
    KidsInRange(d.View(), node);
    EndFacts(d.View(), node);
    ghost var pairs := AttPairs(d.View(), node);
    var atts := "";
    var tmp := d.nodes[node].firstattrib;
    ghost var m := 0;
    while tmp.Some?
      invariant m <= |l| && tmp == (if m < |l| then Some(l[m]) else None)
      invariant atts == PrintAtts(pairs[..m])
      decreases |l| - m
    {
      AttFacts(d.View(), node, m);
      var value := StrEscape(d.nodes[tmp.value].data);
      PrintAttsLast(pairs[..m], pairs[m]);
      assert pairs[..m + 1] == pairs[..m] + [pairs[m]];
      atts := atts + (" " + d.nodes[tmp.value].name + "='" + value + "'");
      tmp := d.nodes[tmp.value].next;
      m := m + 1;
    }
    assert pairs[..m] == pairs;
    s := "<" + d.nodes[node].name + atts + (if flag == 0 then "/>" else ">");
  }

  /** Nodes linked to a list, up to its end. */
  ghost predicate Siblings(v: Nodes, l: seq<nat>)
  {
    && Ok(v)
    && forall n :: 0 <= n < |l| ==> SiblingAt(v, l, n)
  }

  ghost predicate SiblingAt(v: Nodes, l: seq<nat>, n: nat)
    requires n < |l|
  {
    && l[n] < |v.nodes| && v.nodes[l[n]].kind != AttribNode
    && v.nodes[l[n]].next == (if n + 1 < |l| then Some(l[n + 1]) else None)
  }

  lemma {:induction false} SiblingsRest(v: Nodes, l: seq<nat>)
    requires Siblings(v, l) && l != []
    ensures Siblings(v, l[1..]) && l[0] < |v.nodes| == |v.kids| && v.nodes[l[0]].kind != AttribNode
    ensures v.nodes[l[0]].next == if |l| > 1 then Some(l[1]) else None
  {
    assert SiblingAt(v, l, 0);
    forall n | 0 <= n < |l[1..]| ensures SiblingAt(v, l[1..], n) { assert SiblingAt(v, l, n + 1); }
  }

  /** What the walk prints for a list of siblings: it stops behind the first that has children. */
  ghost function Walked(v: Nodes, l: seq<nat>): string
    requires Siblings(v, l)
    decreases |l|
  {
    if l == [] then ""
    else
      SiblingsRest(v, l);
      Print(TreeOf(v, l[0])) + (if v.kids[l[0]] != [] then "" else Walked(v, l[1..]))
  }

  /** What is still to be printed behind the node at the end of `path`: its later siblings, and the end tags around it.
      `pos` holds the place of every node of the path under the one before it, `rest` the siblings of the outermost. */
  ghost function Behind(v: Nodes, path: seq<nat>, pos: seq<nat>, rest: seq<nat>): string
    requires OnPath(v, path, pos) && Siblings(v, rest)
    decreases |path|
  {
    if |path| == 1 then (if v.kids[path[0]] != [] then "" else Walked(v, rest))
    else
      var up := path[..|path| - 1];
      var i, m := up[|up| - 1], pos[|pos| - 1];
      PathUp(v, path, pos);
      PrintAll(KidTrees(v, i)[m + 1..]) + CloseTag(v.nodes[i].name) + Behind(v, up, pos[..|pos| - 1], rest)
  }

  ghost predicate OnPath(v: Nodes, path: seq<nat>, pos: seq<nat>)
  {
    && Ok(v) && |path| == |pos| + 1 && path[0] < |v.nodes|
    && forall n :: 0 <= n < |pos| ==> IsKid(v, path[n], pos[n], path[n + 1])
  }

  ghost predicate IsKid(v: Nodes, i: nat, m: nat, k: nat)
  {
    i < |v.nodes| && i < |v.kids| && m < |v.kids[i]| && v.kids[i][m] == k
  }

  lemma {:induction false} PathUp(v: Nodes, path: seq<nat>, pos: seq<nat>)
    requires OnPath(v, path, pos) && |path| > 1
    ensures OnPath(v, path[..|path| - 1], pos[..|pos| - 1])
    ensures var i, m := path[|path| - 2], pos[|pos| - 1];
            IsKid(v, i, m, path[|path| - 1]) && m < |KidTrees(v, i)| && path[|path| - 1] < |v.nodes|
  {
    var up, pos' := path[..|path| - 1], pos[..|pos| - 1];
    assert IsKid(v, path[|pos| - 1], pos[|pos| - 1], path[|pos|]);
    KidFacts(v, path[|path| - 2], pos[|pos| - 1]);
    KidsInRange(v, path[|path| - 2]);
    forall n | 0 <= n < |pos'| ensures IsKid(v, up[n], pos'[n], up[n + 1]) { assert IsKid(v, path[n], pos[n], path[n + 1]); }
  }

  lemma {:induction false} PathDown(v: Nodes, path: seq<nat>, pos: seq<nat>, m: nat)
    requires OnPath(v, path, pos)
    requires path[|path| - 1] < |v.nodes| && m < |v.kids[path[|path| - 1]]|
    ensures OnPath(v, path + [v.kids[path[|path| - 1]][m]], pos + [m])
  {
    var path', pos' := path + [v.kids[path[|path| - 1]][m]], pos + [m];
    forall n | 0 <= n < |pos'| ensures IsKid(v, path'[n], pos'[n], path'[n + 1]) {
      if n < |pos| { assert IsKid(v, path[n], pos[n], path[n + 1]); }
    }
  }

  /** Going down to the first child: the start tag is printed, the rest is still to come. */
  lemma {:induction false} DownStep(v: Nodes, path: seq<nat>, pos: seq<nat>, rest: seq<nat>)
    requires Siblings(v, rest) && OnPath(v, path, pos) && path[|path| - 1] < |v.nodes| && v.nodes[path[|path| - 1]].kind == TagNode && v.kids[path[|path| - 1]] != []
    ensures var i := path[|path| - 1]; var k := v.kids[i][0];
            && i < k < |v.nodes| && v.nodes[k].kind != AttribNode && OnPath(v, path + [k], pos + [0])
            && Print(TreeOf(v, i)) + Behind(v, path, pos, rest) ==
               OpenTag(v.nodes[i].name, AttPairs(v, i), false) + (Print(TreeOf(v, k)) + Behind(v, path + [k], pos + [0], rest))
  {
    hide Print; hide OpenTag; hide CloseTag; hide TreesOf;
    var i := path[|path| - 1];
    var k := v.kids[i][0];
    KidFacts(v, i, 0);
    KidsInRange(v, i);
    PathDown(v, path, pos, 0);
    assert (path + [k])[..|path|] == path && (pos + [0])[..|pos|] == pos;
    TreesAt(v, i, v.kids[i], 0);
    PrintOfTag(v, i);
    var ts := KidTrees(v, i);
    assert ts[0] == TreeOf(v, k) && PrintAll(ts) == Print(ts[0]) + PrintAll(ts[1..]);
    var o, c, b := OpenTag(v.nodes[i].name, AttPairs(v, i), false), CloseTag(v.nodes[i].name), Behind(v, path, pos, rest);
    assert o + (Print(ts[0]) + PrintAll(ts[1..])) + c + b == o + (Print(ts[0]) + (PrintAll(ts[1..]) + c + b));
  }

  lemma {:induction false} PrintOfTag(v: Nodes, i: nat)
    requires Ok(v) && i < |v.nodes| && v.nodes[i].kind == TagNode
    ensures Print(TreeOf(v, i)) == if v.kids[i] == [] then OpenTag(v.nodes[i].name, AttPairs(v, i), true)
                                   else OpenTag(v.nodes[i].name, AttPairs(v, i), false) + PrintAll(KidTrees(v, i)) + CloseTag(v.nodes[i].name)
  {
    KidsInRange(v, i);
  }

  /** Going on to the next sibling. */
  lemma {:induction false} NextStep(v: Nodes, path: seq<nat>, pos: seq<nat>, rest: seq<nat>)
    requires Siblings(v, rest) && OnPath(v, path, pos) && |path| > 1
    requires var i, m := path[|path| - 2], pos[|pos| - 1]; i < |v.nodes| && m + 1 < |v.kids[i]|
    ensures var i, m := path[|path| - 2], pos[|pos| - 1]; var k := v.kids[i][m + 1];
            var path', pos' := path[..|path| - 1] + [k], pos[..|pos| - 1] + [m + 1];
            && k < |v.nodes| && v.nodes[k].kind != AttribNode && OnPath(v, path', pos')
            && Behind(v, path, pos, rest) == Print(TreeOf(v, k)) + Behind(v, path', pos', rest)
  {
    hide Print; hide CloseTag; hide TreesOf;
    var i, m := path[|path| - 2], pos[|pos| - 1];
    var k := v.kids[i][m + 1];
    var up, low := path[..|path| - 1], pos[..|pos| - 1];
    PathUp(v, path, pos);
    KidFacts(v, i, m + 1);
    PathDown(v, up, low, m + 1);
    assert (up + [k])[..|up|] == up && (low + [m + 1])[..|low|] == low;
    KidsInRange(v, i);
    TreesAt(v, i, v.kids[i], m + 1);
    var ts := KidTrees(v, i);
    var later := ts[m + 1..];
    assert later[0] == TreeOf(v, k) && later[1..] == ts[m + 2..];
    var p, q, c, b := Print(later[0]), PrintAll(later[1..]), CloseTag(v.nodes[i].name), Behind(v, up, low, rest);
    assert (p + q) + c + b == p + (q + c + b);
  }

  /** Going up from the last sibling. */
  lemma {:induction false} UpStep(v: Nodes, path: seq<nat>, pos: seq<nat>, rest: seq<nat>)
    requires Siblings(v, rest) && OnPath(v, path, pos) && |path| > 1
    requires var i, m := path[|path| - 2], pos[|pos| - 1]; i < |v.nodes| && m + 1 == |v.kids[i]|
    ensures OnPath(v, path[..|path| - 1], pos[..|pos| - 1]) && path[|path| - 2] < |v.nodes|
    ensures Behind(v, path, pos, rest) == CloseTag(v.nodes[path[|path| - 2]].name) + Behind(v, path[..|path| - 1], pos[..|pos| - 1], rest)
  {
    var i, m := path[|path| - 2], pos[|pos| - 1];
    PathUp(v, path, pos);
    KidsInRange(v, i);
    var ts := KidTrees(v, i);
    assert ts[m + 1..] == [] && PrintAll(ts[m + 1..]) == "";
    var c, b := CloseTag(v.nodes[i].name), Behind(v, path[..|path| - 1], pos[..|pos| - 1], rest);
    assert "" + c + b == c + b;
  }

  lemma {:induction false} OpenTagLength(name: string, atts: seq<(string, string)>, empty: bool)
    ensures |OpenTag(name, atts, empty)| > 0 && |CloseTag(name)| > 0
  {
  }

  /** How many siblings follow. */
  ghost function Following(v: Nodes, path: seq<nat>, pos: seq<nat>): nat
    requires OnPath(v, path, pos)
  {
    if |path| == 1 then 0 else (PathUp(v, path, pos); |v.kids[path[|path| - 2]]| - pos[|pos| - 1])
  }

  /** The node the walk is at: its links lead where the lists say. */
  lemma {:induction false} HereFacts(v: Nodes, path: seq<nat>, pos: seq<nat>)
    requires OnPath(v, path, pos)
    ensures var n := path[|path| - 1];
            && n < |v.nodes| && v.nodes[n].firstchild == First(v.kids[n])
            && (|path| > 1 ==> var i, m := path[|path| - 2], pos[|pos| - 1];
                               && i < |v.nodes| && m < |v.kids[i]| && v.nodes[n].parent == Some(i)
                               && v.nodes[n].next == (if m + 1 < |v.kids[i]| then Some(v.kids[i][m + 1]) else None))
  {
    if |path| > 1 {
      PathUp(v, path, pos);
      KidFacts(v, path[|path| - 2], pos[|pos| - 1]);
    }
    EndFacts(v, path[|path| - 1]);
  }

  /** What is printed when the walk comes to a node from its left, and whether it goes down from there. */
  method Visit(d: Dom, node: nat) returns (s: string, down: bool)
    requires d.Valid() && node < |d.nodes| && d.nodes[node].kind != AttribNode
    ensures down == (d.kids[node] != []) && (down ==> d.nodes[node].kind == TagNode)
    ensures d.nodes[node].kind == TagNode ==> |s| > 0
    ensures if down then s == OpenTag(d.nodes[node].name, AttPairs(d.View(), node), false) else s == Print(TreeOf(d.View(), node))
  {
    hide Print; hide OpenTag; hide CloseTag; hide TreeOf; hide KidTrees; hide AttPairs;
    ghost var v := d.View();
    EndFacts(v, node);
    if d.nodes[node].kind == TagNode {
      PrintOfTag(v, node);
      down := d.nodes[node].firstchild.Some?;
      OpenTagLength(d.nodes[node].name, AttPairs(v, node), !down);
      s := StartTag2Str(d, node, if down then 1 else 0);
    } else {
      down := false;
      s := StrEscape(d.nodes[node].data);
      PrintOfText(v, node);
    }
  }

  /** The siblings that follow grow fewer. */
  lemma {:induction false} FollowingNext(v: Nodes, path: seq<nat>, pos: seq<nat>, rest: seq<nat>)
    requires Siblings(v, rest) && OnPath(v, path, pos) && |path| > 1
    requires var i, m := path[|path| - 2], pos[|pos| - 1]; i < |v.nodes| && m + 1 < |v.kids[i]|
    ensures var i, m := path[|path| - 2], pos[|pos| - 1]; var k := v.kids[i][m + 1];
            var path', pos' := path[..|path| - 1] + [k], pos[..|pos| - 1] + [m + 1];
            OnPath(v, path', pos') && Following(v, path', pos') < Following(v, path, pos)
  {
    hide Print; hide CloseTag; hide TreesOf; hide Behind;
    NextStep(v, path, pos, rest);
  }

  /** At the outermost level: nothing more behind a node with children, the later siblings behind one without. */
  lemma {:induction false} AtTop(v: Nodes, path: seq<nat>, pos: seq<nat>, rest: seq<nat>)
    requires OnPath(v, path, pos) && |path| == 1 && Siblings(v, rest)
    ensures path == [path[0]] && pos == [] && path[0] < |v.nodes| == |v.kids|
    ensures Behind(v, path, pos, rest) == if v.kids[path[0]] != [] then "" else Walked(v, rest)
  {
  }

  lemma {:induction false} AloneAtTop(v: Nodes, i: nat, rest: seq<nat>)
    requires Ok(v) && i < |v.nodes| && Siblings(v, rest)
    ensures OnPath(v, [i], []) && Behind(v, [i], [], rest) == if v.kids[i] != [] then "" else Walked(v, rest)
  {
  }

  lemma {:induction false} WalkedFirst(v: Nodes, l: seq<nat>)
    requires Siblings(v, l)
    ensures l == [] ==> Walked(v, l) == ""
    ensures l != [] ==> Siblings(v, l[1..]) && l[0] < |v.nodes| == |v.kids| && v.nodes[l[0]].kind != AttribNode
                        && Walked(v, l) == Print(TreeOf(v, l[0])) + (if v.kids[l[0]] != [] then "" else Walked(v, l[1..]))
                        && v.nodes[l[0]].next == (if |l| > 1 then Some(l[1]) else None)
  {
    hide Print; hide TreeOf;
    if l != [] { SiblingsRest(v, l); }
  }

  lemma {:induction false} HasKids(v: Nodes, path: seq<nat>, pos: seq<nat>)
    requires OnPath(v, path, pos) && |path| == 2
    ensures path[0] < |v.nodes| == |v.kids| && v.kids[path[0]] != []
  {
    assert IsKid(v, path[0], pos[0], path[1]);
  }

  /** To the next sibling, at any level. */
  lemma {:induction false} Sideways(v: Nodes, path: seq<nat>, pos: seq<nat>, rest: seq<nat>) returns (path': seq<nat>, pos': seq<nat>, rest': seq<nat>)
    requires Ok(v) && OnPath(v, path, pos) && |path| == |pos| + 1 && Siblings(v, rest) && path[|path| - 1] < |v.nodes| == |v.kids|
    requires v.nodes[path[|path| - 1]].next.Some?
    requires |path| == 1 ==> v.nodes[path[0]].next == First(rest) && v.kids[path[0]] == []
    ensures OnPath(v, path', pos') && Siblings(v, rest') && |path'| == |path| && |pos'| == |pos|
    ensures var k := v.nodes[path[|path| - 1]].next.value;
            && path'[|path| - 1] == k < |v.nodes| && v.nodes[k].kind != AttribNode
            && Behind(v, path, pos, rest) == Print(TreeOf(v, k)) + Behind(v, path', pos', rest')
    ensures |path| == 1 ==> v.nodes[path'[0]].next == First(rest')
    ensures |rest'| < |rest| || (|rest'| == |rest| && Following(v, path', pos') < Following(v, path, pos))
  {
    hide *;
    var n := path[|path| - 1];
    if |path| == 1 {
      AtTop(v, path, pos, rest);
      WalkedFirst(v, rest);
      FirstIs(rest);
      FirstIs(rest[1..]);
      path', pos', rest' := [rest[0]], [], rest[1..];
      AloneAtTop(v, rest[0], rest');
    } else {
      HereFacts(v, path, pos);
      NextStep(v, path, pos, rest);
      FollowingNext(v, path, pos, rest);
      path', pos', rest' := path[..|path| - 1] + [v.nodes[n].next.value], pos[..|pos| - 1] + [pos[|pos| - 1] + 1], rest;
    }
  }

  /** Up from the last sibling: what is left is the end tag, and what is behind it; nothing is behind the outermost. */
  lemma {:induction false} Upwards(v: Nodes, path: seq<nat>, pos: seq<nat>, rest: seq<nat>) returns (path': seq<nat>, pos': seq<nat>)
    requires Ok(v) && OnPath(v, path, pos) && |path| == |pos| + 1 && Siblings(v, rest) && path[|path| - 1] < |v.nodes| == |v.kids|
    requires |path| > 1 && v.nodes[path[|path| - 1]].next.None?
    ensures OnPath(v, path', pos') && |path'| == |path| - 1 && |pos'| == |pos| - 1
    ensures var i := path'[|path'| - 1];
            && i < |v.nodes| && v.nodes[path[|path| - 1]].parent == Some(i)
            && Behind(v, path, pos, rest) == CloseTag(v.nodes[i].name) + Behind(v, path', pos', rest) && |CloseTag(v.nodes[i].name)| > 0
            && (|path'| > 1 ==> v.nodes[i].kind != AttribNode) && (|path'| == 1 ==> Behind(v, path', pos', rest) == "")
  {
    hide *;
    HereFacts(v, path, pos);
    UpStep(v, path, pos, rest);
    path', pos' := path[..|path| - 1], pos[..|pos| - 1];
    if |path| == 2 {
      HasKids(v, path, pos);
      AtTop(v, path', pos', rest);
    } else {
      ParentKind(v, path', pos');
    }
    OpenTagLength(v.nodes[path'[|path'| - 1]].name, [], true);
  }

  /** What was printed and what is still to come. */
  ghost predicate Splits(total: string, s: string, rest: string) { total == s + rest }

  lemma {:induction false} SplitsMore(total: string, s: string, a: string, b: string)
    requires Splits(total, s, a + b)
    ensures Splits(total, s + a, b) && |s| + |a| <= |total|
  {
    assert s + (a + b) == s + a + b;
  }

  lemma {:induction false} SplitsEnds(total: string, s: string)
    ensures Splits(total, "", total) && (Splits(total, s, "") ==> s == total)
  {
    assert "" + total == total && s + "" == s;
  }

  /** _xmlnode2spool: the walk has no stack, and it ends.  `siblings` are the nodes linked from `start` on. */
  method PrintNode(d: Dom, start: nat, ghost siblings: seq<nat>) returns (s: string)
    requires d.Valid() && Siblings(d.View(), siblings) && siblings != [] && siblings[0] == start
    requires start < |d.nodes| && d.nodes[start].kind == TagNode
    ensures s == Walked(d.View(), siblings)
  {
    hide *;
    ViewIs(d);
    ghost var v := d.View();
    ghost var total := Walked(v, siblings);
    ghost var path: seq<nat>, pos: seq<nat>, rest := [start], [], siblings[1..];
    s := "";
    var node, level, dir := start, 0, 0;
    WalkedFirst(v, siblings);
    AloneAtTop(v, start, rest);
    SplitsEnds(total, s);
    FirstIs(rest);
    while true
      invariant Ok(v) && Siblings(v, rest) && OnPath(v, path, pos) && |path| == level + 1 == |pos| + 1 && path[level] == node < |d.nodes| == |v.kids|
      invariant 0 <= dir <= 1 && 0 <= level && (dir == 1 ==> level >= 1) && d.nodes[node].kind != AttribNode
      invariant level == 0 ==> d.nodes[node].next == First(rest)
      invariant Splits(total, s, if dir == 0 then Print(TreeOf(v, node)) + Behind(v, path, pos, rest) else Behind(v, path, pos, rest))
      decreases |total| - |s|, |rest|, Following(v, path, pos)
    {
      ghost var behind := Behind(v, path, pos, rest);
      if dir == 0 {
        var part, down := Visit(d, node);
        if down {
          HereFacts(v, path, pos);
          DownStep(v, path, pos, rest);
          FirstIs(v.kids[node]);
          var child := d.nodes[node].firstchild.value;
          SplitsMore(total, s, part, Print(TreeOf(v, child)) + Behind(v, path + [child], pos + [0], rest));
          s := s + part;
          node := child;
          path, pos := path + [node], pos + [0];
          level := level + 1;
          continue;
        }
        SplitsMore(total, s, part, behind);
        s := s + part;
      }
      assert Splits(total, s, behind);
      var tmp := d.nodes[node].next;
      if tmp.None? {
        level := level - 1;
        if level < 0 {
          AtTop(v, path, pos, rest);
          WalkedFirst(v, rest);
          FirstIs(rest);
          break;
        }
        path, pos := Upwards(v, path, pos, rest);
        node := d.nodes[node].parent.value;
        SplitsMore(total, s, CloseTag(d.nodes[node].name), Behind(v, path, pos, rest));
        s := s + CloseTag(d.nodes[node].name);
        if level < 1 { break; }
        dir := 1;
      } else {
        path, pos, rest := Sideways(v, path, pos, rest);
        node := tmp.value;
        dir := 0;
      }
    }
    SplitsEnds(total, s);
  }

  /** What the walk prints is the recursive serialization of the start node, if that has children or no next sibling, and
      otherwise exactly if nothing is printed for the siblings it walks into. */
  lemma {:induction false} WalkedIsPrinted(v: Nodes, siblings: seq<nat>)
    requires Siblings(v, siblings) && siblings != []
    ensures siblings[0] < |v.nodes| == |v.kids| && v.nodes[siblings[0]].kind != AttribNode && Siblings(v, siblings[1..])
    ensures Walked(v, siblings) == Print(TreeOf(v, siblings[0]))
            <==> v.kids[siblings[0]] != [] || v.nodes[siblings[0]].next.None? || Walked(v, siblings[1..]) == ""
  {
    hide Print; hide TreeOf;
    WalkedFirst(v, siblings);
    WalkedFirst(v, siblings[1..]);
    var p := Print(TreeOf(v, siblings[0]));
    assert p + "" == p;
    if v.kids[siblings[0]] == [] && Walked(v, siblings[1..]) != "" { assert |Walked(v, siblings)| > |p|; }
  }

  /** A childless tag with a tag behind it is printed with it. */
  lemma {:induction false} WalksIntoSibling(v: Nodes, l: seq<nat>)
    requires Siblings(v, l) && |l| == 2 && l[0] < |v.nodes| && l[1] < |v.nodes| && v.nodes[l[1]].kind == TagNode
    requires |v.nodes| == |v.kids| && v.kids[l[0]] == [] && v.nodes[l[0]].kind == TagNode
    ensures Walked(v, l) == Print(TreeOf(v, l[0])) + Print(TreeOf(v, l[1])) != Print(TreeOf(v, l[0]))
  {
    hide Print; hide TreeOf;
    WalkedFirst(v, l);
    WalkedFirst(v, l[1..]);
    WalkedFirst(v, l[1..][1..]);
    PrintOfTag(v, l[1]);
    OpenTagLength(v.nodes[l[1]].name, AttPairs(v, l[1]), true);
    OpenTagLength(v.nodes[l[1]].name, AttPairs(v, l[1]), false);
    var p, q := Print(TreeOf(v, l[0])), Print(TreeOf(v, l[1]));
    assert q + "" == q && |q| > 0 && |p + q| > |p|;
  }

  lemma {:induction false} ViewIs(d: Dom)
    requires d.Valid()
    ensures Ok(d.View()) && d.View() == Nodes(d.nodes, d.kids, d.atts, d.owner)
  {
  }

  lemma {:induction false} FirstIs(l: seq<nat>)
    ensures First(l).Some? == (l != []) && (l != [] ==> First(l) == Some(l[0]))
  {
  }

  lemma {:induction false} PrintOfText(v: Nodes, i: nat)
    requires Ok(v) && i < |v.nodes| && v.nodes[i].kind == CdataNode
    ensures Print(TreeOf(v, i)) == Escape(v.nodes[i].data)
  {
  }

  lemma {:induction false} ParentKind(v: Nodes, path: seq<nat>, pos: seq<nat>)
    requires OnPath(v, path, pos) && |path| > 1
    ensures path[|path| - 1] < |v.nodes| && v.nodes[path[|path| - 1]].kind != AttribNode
  {
    PathUp(v, path, pos);
    KidFacts(v, path[|path| - 2], pos[|pos| - 1]);
  }
}
