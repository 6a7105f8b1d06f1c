/**
 Printing a DOM tree with xmlnode2str and parsing the text with xmlnode_str:
 the round trip of XmlRoundTrip on the code of libjabber/xmlnode.c and
 libjabber/expat.c.
 */
module XmlReparse {
  import opened XmlScan
  import opened XmlValue
  import opened XmlContent
  import opened XmlChunks
  import opened XmlTree
  import opened XmlPrinted
  import opened XmlRoundTrip
  import opened XmlNodes
  import opened XmlDom
  import opened XmlDomRead
  import opened XmlDomBuild
  import opened XmlParser

  lemma {:induction false} AloneWalked(v: Nodes, x: nat)
    requires Ok(v) && x < |v.nodes| && v.nodes[x].kind != AttribNode && v.nodes[x].next == None
    ensures Siblings(v, [x]) && Walked(v, [x]) == Print(TreeOf(v, x))
  {
    hide Print; hide TreeOf;
    WalkedFirst(v, [x]);
    assert [x][1..] == [];
    WalkedFirst(v, []);
    assert Print(TreeOf(v, x)) + "" == Print(TreeOf(v, x));
  }

  /** For a tree with legal names and characters and without siblings: what comes back is the tree with line ends and white
      space in values normalized, and it is the same tree exactly when there was nothing to normalize. */
  method Reparse(d: Dom, x: nat, env: Env, dtd: Dtd) returns (e: Dom, y: nat)
    requires TableLaws(env) && RoleLaws(env) && Utf8(env.enc) && StartsPlainly(env, Initial(dtd))
    requires d.Valid() && x < |d.nodes| && d.nodes[x].kind == TagNode && d.nodes[x].next == None
    requires Legal(env.enc, TreeOf(d.View(), x)) && Normal(TreeOf(d.View(), x))
    ensures fresh(e) && e.Valid() && y < |e.nodes| && e.nodes[y].kind == TagNode
    ensures TreeOf(e.View(), y) == Restored(TreeOf(d.View(), x))
    ensures TreeOf(e.View(), y) == TreeOf(d.View(), x) <==> Clean(TreeOf(d.View(), x))
  {
    hide RoleLaws; hide Utf8; hide XmlChunks.Parse; hide Print; hide Legal; hide Normal; hide Build; hide EventsOf; hide Restored; hide Walked;
    ghost var t := TreeOf(d.View(), x);
    AloneWalked(d.View(), x);
    var str := PrintNode(d, x, [x]);
    assert t.Tag?;
    assert Concat([]) + str == str;
    PrintedParsed(env, Initial(dtd), t, [], str);
    var root;
    e, root := XmlnodeStr(env, dtd, str);
    y := root.value;
    ghost var f := Restored(t);
    SameFrame(Frame(e.nodes[y].name, AttPairs(e.View(), y), KidTrees(e.View(), y)), Frame(f.name, f.atts, f.kids));
    KidsInRange(e.View(), y);
    assert TreeOf(e.View(), y) == Tree.Tag(f.name, f.atts, f.kids) == f;
    RestoredSame(t);
  }

  lemma {:induction false} SameFrame(a: Frame, b: Frame)
    requires [a] == [b]
    ensures a == b
  {
    assert [a][0] == [b][0];
  }
}
