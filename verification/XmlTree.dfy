/**
 Element trees as values: what the DOM of libjabber/xmlnode.c holds, what
 xmlnode2str prints for it (with strescape of libjabber/str.c), the events a
 parser reports for that text, and the tree that the callbacks of
 libjabber/expat.c build from events.
 */
module XmlTree {
  import opened XmlValue
  import opened XmlContent
  import opened XmlNesting

  datatype Tree = Tag(name: string, atts: seq<(string, string)>, kids: seq<Tree>) | Text(data: string)

  // ---- Escaping ----

  function EscapeChar(c: char): string
  {
    match c
    case '&' => "&amp;"
    case '\'' => "&apos;"
    case '\"' => "&quot;"
    case '<' => "&lt;"
    case '>' => "&gt;"
    case _ => [c]
  }

  function Escape(s: string): string
  {
    if s == "" then "" else EscapeChar(s[0]) + Escape(s[1..])
  }

  // ---- Printing ----

  function PrintAtts(atts: seq<(string, string)>): string
  {
    if atts == [] then "" else " " + atts[0].0 + "='" + Escape(atts[0].1) + "'" + PrintAtts(atts[1..])
  }

  function OpenTag(name: string, atts: seq<(string, string)>, empty: bool): string
  {
    "<" + name + PrintAtts(atts) + (if empty then "/>" else ">")
  }

  function CloseTag(name: string): string { "</" + name + ">" }

  /** Recursive serialization. */
  function Print(t: Tree): string
    decreases t, 0
  {
    match t
    case Text(data) => Escape(data)
    case Tag(name, atts, kids) =>
      if kids == [] then OpenTag(name, atts, true) else OpenTag(name, atts, false) + PrintAll(kids) + CloseTag(name)
  }

  function PrintAll(l: seq<Tree>): string
    decreases l, 0
  {
    if l == [] then "" else Print(l[0]) + PrintAll(l[1..])
  }

  // ---- Events ----

  function EventsOf(t: Tree): seq<Event>
    decreases t, 0
  {
    match t
    case Text(data) => CharBytes(data)
    case Tag(name, atts, kids) => [StartElement(name, atts)] + EventsOfAll(kids) + [EndElement(name)]
  }

  function EventsOfAll(l: seq<Tree>): seq<Event>
    decreases l, 0
  {
    if l == [] then [] else EventsOf(l[0]) + EventsOfAll(l[1..])
  }

  // ---- Building ----

  /** An element being built; the current node is the last of a list of these. */
  datatype Frame = Frame(name: string, atts: seq<(string, string)>, kids: seq<Tree>)

  /** xmlnode_put_attrib: the value is replaced where the name is known. */
  function PutAtt(atts: seq<(string, string)>, name: string, value: string): (r: seq<(string, string)>)
  {
    if atts == [] then [(name, value)]
    else if atts[0].0 == name then [(name, value)] + atts[1..]
    else [atts[0]] + PutAtt(atts[1..], name, value)
  }

  function PutAtts(atts: seq<(string, string)>, more: seq<(string, string)>): seq<(string, string)>
    decreases |more|
  {
    if more == [] then atts else PutAtts(PutAtt(atts, more[0].0, more[0].1), more[1..])
  }

  /** xmlnode_insert_cdata: text behind text is merged into one node. */
  function AddText(kids: seq<Tree>, s: string): seq<Tree>
  {
    if kids != [] && kids[|kids| - 1].Text? then kids[..|kids| - 1] + [Text(kids[|kids| - 1].data + s)] else kids + [Text(s)]
  }

  function AddKid(stack: seq<Frame>, f: seq<Tree> -> seq<Tree>): seq<Frame>
    requires stack != []
  {
    var top := stack[|stack| - 1];
    stack[..|stack| - 1] + [top.(kids := f(top.kids))]
  }

  /** The callbacks: the end of the outermost element leaves the current node where it is. */
  function BuildStep(stack: seq<Frame>, e: Event): seq<Frame>
  {
    match e
    case StartElement(name, atts) => stack + [Frame(name, PutAtts([], atts), [])]
    case CharByte(c) => if stack == [] then [] else AddKid(stack, kids => AddText(kids, [c]))
    case EndElement(_) =>
      if |stack| <= 1 then stack
      else
        var top := stack[|stack| - 1];
        AddKid(stack[..|stack| - 1], kids => kids + [Tag(top.name, top.atts, top.kids)])
  }

  function Build(stack: seq<Frame>, events: seq<Event>): seq<Frame>
    decreases |events|
  {
    if events == [] then stack else Build(BuildStep(stack, events[0]), events[1..])
  }

  /** Attribute names are unique, no text is empty, and no two texts are neighbours: what the insert functions keep. */
  predicate Normal(t: Tree)
    decreases t, 0
  {
    match t
    case Text(data) => data != ""
    case Tag(_, atts, kids) => Unique(atts) && NormalAll(kids)
  }

  predicate NormalAll(l: seq<Tree>)
    decreases l, 0
  {
    l == [] || (Normal(l[0]) && NormalAll(l[1..]) && (|l| > 1 ==> !(l[0].Text? && l[1].Text?)))
  }

  predicate Unique(atts: seq<(string, string)>) { forall i, j :: 0 <= i < j < |atts| ==> atts[i].0 != atts[j].0 }

  lemma {:induction false} BuildConcat(stack: seq<Frame>, a: seq<Event>, b: seq<Event>)
    ensures Build(stack, a + b) == Build(Build(stack, a), b)
    decreases |a|
  {
    if a == [] {
      assert a + b == b;
    } else {
      assert (a + b)[1..] == a[1..] + b;
      BuildConcat(BuildStep(stack, a[0]), a[1..], b);
    }
  }

  lemma {:induction false} PutNew(atts: seq<(string, string)>, name: string, value: string)
    requires forall i :: 0 <= i < |atts| ==> atts[i].0 != name
    ensures PutAtt(atts, name, value) == atts + [(name, value)]
    decreases |atts|
  {
    if atts != [] {
      PutNew(atts[1..], name, value);
      assert atts == [atts[0]] + atts[1..];
    }
  }

  lemma {:induction false} PutUnique(atts: seq<(string, string)>, more: seq<(string, string)>)
    requires Unique(atts + more)
    ensures PutAtts(atts, more) == atts + more
    decreases |more|
  {
    if more == [] {
      assert atts + more == atts;
    } else {
      var all := atts + more;
      assert forall i :: 0 <= i < |atts| ==> atts[i] == all[i];
      assert more[0] == all[|atts|];
      PutNew(atts, more[0].0, more[0].1);
      assert atts + [more[0]] + more[1..] == all;
      PutUnique(atts + [more[0]], more[1..]);
    }
  }

  lemma {:induction false} BuildOne(stack: seq<Frame>, e: Event)
    ensures Build(stack, [e]) == BuildStep(stack, e)
  {
    assert [e][1..] == [];
  }

  /** Text behind something that is no text becomes one node, byte by byte. */
  lemma {:induction false} BuildText(low: seq<Frame>, name: string, atts: seq<(string, string)>, done: seq<Tree>, seen: string, s: string)
    requires seen != ""
    ensures Build(low + [Frame(name, atts, done + [Text(seen)])], CharBytes(s)) == low + [Frame(name, atts, done + [Text(seen + s)])]
    decreases |s|
  {
    hide BuildStep; hide AddText;
    if s == "" {
      assert seen + s == seen && CharBytes(s) == [];
    } else {
      assert CharBytes(s)[1..] == CharBytes(s[1..]);
      ByteBehind(low, name, atts, done, seen, s[0]);
      BuildText(low, name, atts, done, seen + [s[0]], s[1..]);
      assert seen + [s[0]] + s[1..] == seen + s;
    }
  }

  lemma {:induction false} ByteBehind(low: seq<Frame>, name: string, atts: seq<(string, string)>, done: seq<Tree>, seen: string, c: char)
    requires seen != ""
    ensures BuildStep(low + [Frame(name, atts, done + [Text(seen)])], CharByte(c)) == low + [Frame(name, atts, done + [Text(seen + [c])])]
  {
    assert (done + [Text(seen)])[..|done|] == done;
    assert AddText(done + [Text(seen)], [c]) == done + [Text(seen + [c])];
  }

  lemma {:induction false} BuildNewText(low: seq<Frame>, name: string, atts: seq<(string, string)>, done: seq<Tree>, s: string)
    requires s != "" && (done == [] || !done[|done| - 1].Text?)
    ensures Build(low + [Frame(name, atts, done)], CharBytes(s)) == low + [Frame(name, atts, done + [Text(s)])]
  {
    assert CharBytes(s)[1..] == CharBytes(s[1..]);
    assert BuildStep(low + [Frame(name, atts, done)], CharByte(s[0])) == low + [Frame(name, atts, done + [Text([s[0]])])];
    BuildText(low, name, atts, done, [s[0]], s[1..]);
    assert [s[0]] + s[1..] == s;
  }

  /** The events of a tag put exactly that tag behind the children the current node has. */
  lemma {:induction false} BuildTag(low: seq<Frame>, name: string, atts: seq<(string, string)>, done: seq<Tree>, t: Tree)
    requires t.Tag? && Normal(t)
    ensures Build(low + [Frame(name, atts, done)], EventsOf(t)) == low + [Frame(name, atts, done + [t])]
    decreases t, 0
  {
    var here := low + [Frame(name, atts, done)];
    var start, end := StartElement(t.name, t.atts), EndElement(t.name);
    BuildOpen(here, t);
    BuildConcat(here, [start] + EventsOfAll(t.kids), [end]);
    var closed := here + [Frame(t.name, t.atts, t.kids)];
    BuildOne(closed, end);
    assert closed[..|here|] == here && here[..|low|] == low;
  }

  /** All but the last event of a tag: its element is open, with all its children. */
  lemma {:induction false} BuildOpen(low: seq<Frame>, t: Tree)
    requires t.Tag? && Normal(t)
    ensures Build(low, [StartElement(t.name, t.atts)] + EventsOfAll(t.kids)) == low + [Frame(t.name, t.atts, t.kids)]
    decreases t.kids, 2
  {
    var start := StartElement(t.name, t.atts);
    PutUnique([], t.atts);
    assert [] + t.atts == t.atts && [] + t.kids == t.kids;
    BuildConcat(low, [start], EventsOfAll(t.kids));
    BuildOne(low, start);
    BuildKids(low, t.name, t.atts, [], t.kids);
  }

  lemma {:induction false} BuildKids(low: seq<Frame>, name: string, atts: seq<(string, string)>, done: seq<Tree>, l: seq<Tree>)
    requires NormalAll(l) && (done != [] && l != [] ==> !(done[|done| - 1].Text? && l[0].Text?))
    ensures Build(low + [Frame(name, atts, done)], EventsOfAll(l)) == low + [Frame(name, atts, done + l)]
    decreases l, 1
  {
    hide BuildStep; hide Normal;
    if l == [] {
      assert done + l == done;
    } else {
      hide Build; hide EventsOf;
      BuildConcat(low + [Frame(name, atts, done)], EventsOf(l[0]), EventsOfAll(l[1..]));
      BuildKid(low, name, atts, done, l[0]);
      BuildKids(low, name, atts, done + [l[0]], l[1..]);
      assert done + [l[0]] + l[1..] == done + l;
    }
  }

  lemma {:induction false} BuildKid(low: seq<Frame>, name: string, atts: seq<(string, string)>, done: seq<Tree>, t: Tree)
    requires Normal(t) && (done != [] ==> !(done[|done| - 1].Text? && t.Text?))
    ensures Build(low + [Frame(name, atts, done)], EventsOf(t)) == low + [Frame(name, atts, done + [t])]
    decreases t, 1
  {
    hide Build; hide BuildStep;
    if t.Text? { BuildNewText(low, name, atts, done, t.data); } else { BuildTag(low, name, atts, done, t); }
  }

  /** The callbacks rebuild a tree from its own events; the root stays the current node. */
  lemma {:induction false} BuildRebuilds(t: Tree)
    requires t.Tag? && Normal(t)
    ensures Build([], EventsOf(t)) == [Frame(t.name, t.atts, t.kids)]
  {
    var start, end := StartElement(t.name, t.atts), EndElement(t.name);
    BuildOpen([], t);
    BuildConcat([], [start] + EventsOfAll(t.kids), [end]);
    BuildOne([Frame(t.name, t.atts, t.kids)], end);
  }
}
