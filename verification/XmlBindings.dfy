/**
 Namespace scoping in libjabber/xmlparse.c, with namespace processing on:
 `addBinding`, the declarations `storeAtts` hands it, and the loops that close
 an element.

 A BINDING is a position in `nodes`, and malloc appends to it; the `binding`
 field of the PREFIX records is a map.  `Scope` is what the lists amount to:
 the declarations in force, innermost element first and latest first in it.
 */
module XmlBindings {
  import opened XmlValue

  const EXPAND_SPARE := 24

  const XML_NAMESPACE := "http://www.w3.org/XML/1998/namespace"

  /** `&dtd.defaultPrefix`, or an entry of `dtd.prefixes`. */
  datatype Prefix = DefaultPrefix | Named(name: string)

  datatype Link = Null | At(node: nat)

  datatype Binding = Binding(prefix: Prefix, nextTagBinding: Link, prevPrefixBinding: Link, uri: string, uriAlloc: nat)

  datatype Decl = Decl(node: nat, prefix: Prefix, uri: string)

  datatype Scope = Inherited(decls: seq<Decl>) | Element(decls: seq<Decl>, outer: Scope)

  type Atts = seq<(string, string)>

  datatype Token = StartTag(atts: Atts) | EmptyElement(atts: Atts) | EndTag

  // What the names mean (section 3 of Namespaces in XML)

  /** The prefix an attribute declares, as getAttributeId reads its name. */
  function Declares(name: string): Option<Prefix>
  {
    if |name| >= 5 && name[..5] == "xmlns" && (|name| == 5 || name[5] == ':') then
      Some(if |name| == 5 then DefaultPrefix else Named(name[6..]))
    else
      None
  }

  function Declaring(p: Prefix): string
  {
    match p
    case DefaultPrefix => "xmlns"
    case Named(n) => "xmlns:" + n
  }

  lemma {:induction false} DeclaresIff(name: string, p: Prefix)
    ensures Declares(name) == Some(p) <==> name == Declaring(p)
  {
    if Declares(name) == Some(p) {
      if p.DefaultPrefix? {
        assert name == name[..5];
      } else {
        assert name == name[..5] + [name[5]] + name[6..];
        assert "xmlns" + [':'] == "xmlns:";
      }
    }
    if name == Declaring(p) {
      assert name[..5] == "xmlns";
      if p.Named? { assert name[6..] == p.name; }
    }
  }

  /** The last of an element's attributes that declares the prefix. */
  function Declared(atts: Atts, p: Prefix): (uri: Option<string>)
    ensures uri.Some? <==> exists i :: 0 <= i < |atts| && atts[i].0 == Declaring(p)
    ensures uri.Some? ==> (Declaring(p), uri.value) in atts
  {
    if atts == [] then None
    else
      var n := |atts| - 1;
      var before := Declared(atts[..n], p);
      assert forall i :: 0 <= i < n ==> atts[..n][i] == atts[i];
      if atts[n].0 == Declaring(p) then (assert atts[n] == (Declaring(p), atts[n].1); Some(atts[n].1)) else before
  }

  /**
   Sections 4, 6.1 and 6.2 of Namespaces in XML: the declaration of the innermost
   element that has one; an empty default is none, and `xml` needs no declaration.
   */
  function InForce(open: seq<Atts>, p: Prefix): Option<string>
  {
    if open == [] then (if p == Named("xml") then Some(XML_NAMESPACE) else None)
    else
      var own := Declared(open[|open| - 1], p);
      if own == None then InForce(open[..|open| - 1], p)
      else if p.DefaultPrefix? && own.value == "" then None
      else own
  }

  /** The attributes of the elements that are open after the tokens. */
  function OpenAfter(open: seq<Atts>, tokens: seq<Token>): Option<seq<Atts>>
    decreases |tokens|
  {
    if tokens == [] then Some(open)
    else match tokens[0]
      case StartTag(a) => OpenAfter(open + [a], tokens[1..])
      case EmptyElement(a) => OpenAfter(open, tokens[1..])
      case EndTag => if open == [] then None else OpenAfter(open[..|open| - 1], tokens[1..])
  }

  /** Every element that opens closes again, and no other does. */
  predicate Nested(depth: nat, tokens: seq<Token>)
    decreases |tokens|
  {
    if tokens == [] then depth == 0
    else match tokens[0]
      case StartTag(_) => Nested(depth + 1, tokens[1..])
      case EmptyElement(_) => Nested(depth, tokens[1..])
      case EndTag => depth > 0 && Nested(depth - 1, tokens[1..])
  }

  // Scopes

  function Depth(scope: Scope): nat
  {
    match scope
    case Inherited(_) => 0
    case Element(_, outer) => 1 + Depth(outer)
  }

  function Push(scope: Scope, d: Decl): Scope { scope.(decls := [d] + scope.decls) }

  function Pop(scope: Scope): (s: Scope)
    requires scope.decls != []
    ensures Depth(s) == Depth(scope) && |s.decls| == |scope.decls| - 1
  {
    scope.(decls := scope.decls[1..])
  }

  /** The declaration in force for a prefix. */
  function Visible(scope: Scope, p: Prefix): Option<Decl>
    decreases Depth(scope), |scope.decls|
  {
    if scope.decls != [] then
      if scope.decls[0].prefix == p then Some(scope.decls[0]) else Visible(Pop(scope), p)
    else match scope
      case Inherited(_) => None
      case Element(_, outer) => Visible(outer, p)
  }

  /** What `prefix->binding` is for the declaration in force: `xmlns=""` takes the default away. */
  function LinkOf(d: Option<Decl>): Link
  {
    if d == None || (d.value.prefix.DefaultPrefix? && d.value.uri == "") then Null else At(d.value.node)
  }

  function UriOf(d: Option<Decl>): Option<string>
  {
    if LinkOf(d) == Null then None else Some(d.value.uri)
  }

  /** The nodes on the lists of the scope. */
  ghost function Ids(scope: Scope): multiset<nat>
    decreases Depth(scope), |scope.decls|
  {
    if scope.decls != [] then multiset{scope.decls[0].node} + Ids(Pop(scope))
    else match scope
      case Inherited(_) => multiset{}
      case Element(_, outer) => Ids(outer)
  }

  // What the operations do to them

  datatype Store = Store(scope: Scope, free: seq<nat>, size: nat)

  /** addBinding: the first free node, or a new one, goes on the innermost list. */
  function Bind(s: Store, p: Prefix, uri: string): Store
  {
    if s.free == [] then Store(Push(s.scope, Decl(s.size, p, uri)), [], s.size + 1)
    else Store(Push(s.scope, Decl(s.free[0], p, uri)), s.free[1..], s.size)
  }

  /** XML_ParserCreateNS: the implicit context binds `xml`. */
  function Created(): Store
  {
    Bind(Store(Inherited([]), [], 0), Named("xml"), XML_NAMESPACE)
  }

  function BindAtt(s: Store, att: (string, string)): Store
  {
    if Declares(att.0).Some? then Bind(s, Declares(att.0).value, att.1) else s
  }

  function BindAtts(s: Store, atts: Atts): (t: Store)
    ensures Depth(t.scope) == Depth(s.scope) && t.scope.Element? == s.scope.Element?
    ensures s.scope.Element? ==> t.scope.outer == s.scope.outer
    decreases |atts|
  {
    if atts == [] then s else BindAtt(BindAtts(s, atts[..|atts| - 1]), atts[|atts| - 1])
  }

  function Unbind(s: Store): Store
    requires s.scope.decls != []
  {
    Store(Pop(s.scope), [s.scope.decls[0].node] + s.free, s.size)
  }

  function UnbindAll(s: Store): (t: Store)
    ensures t.scope == s.scope.(decls := []) && t.size == s.size
    decreases |s.scope.decls|
  {
    if s.scope.decls == [] then s else UnbindAll(Unbind(s))
  }

  function Open(s: Store, atts: Atts): (t: Store)
    ensures t.scope.Element? && t.scope.outer == s.scope
  {
    BindAtts(s.(scope := Element([], s.scope)), atts)
  }

  function Close(s: Store): (t: Store)
    requires s.scope.Element?
    ensures t.scope == s.scope.outer
  {
    var t := UnbindAll(s);
    t.(scope := t.scope.outer)
  }

  /** The store after the tokens of content; none if an end tag closes nothing. */
  function Run(s: Store, tokens: seq<Token>): Option<Store>
    decreases |tokens|
  {
    if tokens == [] then Some(s)
    else match tokens[0]
      case StartTag(a) => Run(Open(s, a), tokens[1..])
      case EmptyElement(a) => Run(Close(Open(s, a)), tokens[1..])
      case EndTag => if s.scope.Inherited? then None else Run(Close(s), tokens[1..])
  }

  // The three laws

  /** Content that is nested leaves every binding as it was. */
  lemma {:induction false} NestedRestores(s: Store, tokens: seq<Token>)
    requires Nested(0, tokens)
    ensures Run(s, tokens).Some? && Run(s, tokens).value.scope == s.scope
  {
    RunOut(s, 0, tokens);
  }

  function Outer(scope: Scope, depth: nat): Scope
    requires depth <= Depth(scope)
  {
    if depth == 0 then scope else Outer(scope.outer, depth - 1)
  }

  lemma {:induction false} RunOut(s: Store, depth: nat, tokens: seq<Token>)
    requires depth <= Depth(s.scope) && Nested(depth, tokens)
    ensures Run(s, tokens).Some? && Run(s, tokens).value.scope == Outer(s.scope, depth)
    decreases |tokens|
  {
    if tokens != [] {
      match tokens[0]
      case StartTag(a) => RunOut(Open(s, a), depth + 1, tokens[1..]);
      case EmptyElement(a) => RunOut(Close(Open(s, a)), depth, tokens[1..]);
      case EndTag => RunOut(Close(s), depth - 1, tokens[1..]);
    }
  }

  /** Every node is on exactly one of the lists. */
  ghost predicate Conserved(s: Store)
  {
    forall n: nat :: (Ids(s.scope) + multiset(s.free))[n] == if n < s.size then 1 else 0
  }

  lemma {:induction false} BindConserves(s: Store, p: Prefix, uri: string)
    requires Conserved(s)
    ensures Conserved(Bind(s, p, uri))
  {
    var t := Bind(s, p, uri);
    var d := t.scope.decls[0];
    assert Pop(t.scope) == s.scope by { assert ([d] + s.scope.decls)[1..] == s.scope.decls; }
    if s.free != [] { assert s.free == [s.free[0]] + s.free[1..]; }
    forall n: nat ensures (Ids(t.scope) + multiset(t.free))[n] == if n < t.size then 1 else 0 {
      assert (Ids(s.scope) + multiset(s.free))[n] == if n < s.size then 1 else 0;
    }
  }

  lemma {:induction false} BindAttsConserves(s: Store, atts: Atts)
    requires Conserved(s)
    ensures Conserved(BindAtts(s, atts))
    decreases |atts|
  {
    if atts != [] {
      var n := |atts| - 1;
      BindAttsConserves(s, atts[..n]);
      if Declares(atts[n].0).Some? { BindConserves(BindAtts(s, atts[..n]), Declares(atts[n].0).value, atts[n].1); }
    }
  }

  lemma {:induction false} UnbindConserves(s: Store)
    requires Conserved(s) && s.scope.decls != []
    ensures Conserved(Unbind(s))
  {
    var t := Unbind(s);
    forall n: nat ensures (Ids(t.scope) + multiset(t.free))[n] == if n < t.size then 1 else 0 {
      assert (Ids(s.scope) + multiset(s.free))[n] == if n < s.size then 1 else 0;
    }
  }

  lemma {:induction false} UnbindAllConserves(s: Store)
    requires Conserved(s)
    ensures Conserved(UnbindAll(s))
    decreases |s.scope.decls|
  {
    if s.scope.decls != [] {
      UnbindConserves(s);
      UnbindAllConserves(Unbind(s));
    }
  }

  lemma {:induction false} OpenConserves(s: Store, atts: Atts)
    requires Conserved(s)
    ensures Conserved(Open(s, atts))
  {
    var t := s.(scope := Element([], s.scope));
    assert Ids(t.scope) == Ids(s.scope);
    BindAttsConserves(t, atts);
  }

  lemma {:induction false} CloseConserves(s: Store)
    requires Conserved(s) && s.scope.Element?
    ensures Conserved(Close(s))
  {
    UnbindAllConserves(s);
    assert Ids(UnbindAll(s).scope) == Ids(Close(s).scope);
  }

  /** No run loses a node, or has one on two lists. */
  lemma {:induction false} RunConserves(s: Store, tokens: seq<Token>)
    requires Conserved(s)
    ensures Run(s, tokens).Some? ==> Conserved(Run(s, tokens).value)
    decreases |tokens|
  {
    if tokens != [] {
      match tokens[0]
      case StartTag(a) =>
        OpenConserves(s, a);
        RunConserves(Open(s, a), tokens[1..]);
      case EmptyElement(a) =>
        OpenConserves(s, a);
        CloseConserves(Open(s, a));
        RunConserves(Close(Open(s, a)), tokens[1..]);
      case EndTag =>
        if s.scope.Element? {
          CloseConserves(s);
          RunConserves(Close(s), tokens[1..]);
        }
    }
  }

  /**
   The declarations of these attributes are made in an empty element, whose list
   is a local variable, and then it is not closed: which nodes are on no list now.
   */
  lemma {:induction false} AbandonedList(s: Store, atts: Atts)
    requires Conserved(s)
    ensures Conserved(Open(s, atts).(scope := s.scope)) <==> forall i :: 0 <= i < |atts| ==> Declares(atts[i].0) == None
  {
    var t := Open(s, atts);
    var u := t.(scope := s.scope);
    OpenConserves(s, atts);
    DeclsOf(s.(scope := Element([], s.scope)), atts);
    if t.scope.decls == [] {
      assert Ids(t.scope) == Ids(s.scope);
    } else {
      var n := t.scope.decls[0].node;
      IdsOuter(t.scope);
      assert (Ids(t.scope) + multiset(t.free))[n] == if n < t.size then 1 else 0;
      assert (Ids(u.scope) + multiset(u.free))[n] == 0;
    }
  }

  lemma {:induction false} IdsOuter(scope: Scope)
    requires scope.Element? && scope.decls != []
    ensures multiset{scope.decls[0].node} + Ids(scope.outer) <= Ids(scope)
    decreases |scope.decls|
  {
    if |scope.decls| > 1 { IdsOuter(Pop(scope)); }
  }

  lemma {:induction false} DeclsOf(s: Store, atts: Atts)
    requires s.scope.decls == []
    ensures BindAtts(s, atts).scope.decls == [] <==> forall i :: 0 <= i < |atts| ==> Declares(atts[i].0) == None
    decreases |atts|
  {
    if atts != [] {
      var n := |atts| - 1;
      DeclsOf(s, atts[..n]);
      assert forall i :: 0 <= i < n ==> atts[..n][i] == atts[i];
    }
  }

  /** The scope of nested elements with these attributes, whatever nodes hold the declarations. */
  ghost predicate Mirrors(scope: Scope, open: seq<Atts>)
    decreases scope
  {
    match scope
    case Inherited(decls) => open == [] && |decls| == 1 && decls[0].prefix == Named("xml") && decls[0].uri == XML_NAMESPACE
    case Element(decls, outer) => open != [] && Mirrors(outer, open[..|open| - 1]) && DeclsMirror(decls, open[|open| - 1])
  }

  ghost predicate DeclsMirror(decls: seq<Decl>, atts: Atts)
    decreases |atts|
  {
    if atts == [] then decls == []
    else
      var n := |atts| - 1;
      var p := Declares(atts[n].0);
      if p == None then DeclsMirror(decls, atts[..n])
      else decls != [] && decls[0].prefix == p.value && decls[0].uri == atts[n].1 && DeclsMirror(decls[1..], atts[..n])
  }

  lemma {:induction false} BindAttsMirror(s: Store, atts: Atts)
    requires s.scope.decls == []
    ensures DeclsMirror(BindAtts(s, atts).scope.decls, atts)
    decreases |atts|
  {
    if atts != [] {
      var n := |atts| - 1;
      BindAttsMirror(s, atts[..n]);
      var t := BindAtts(s, atts[..n]);
      var u := BindAtt(t, atts[n]);
      if Declares(atts[n].0).Some? { assert u.scope.decls[1..] == t.scope.decls; }
    }
  }

  lemma {:induction false} RunMirrors(s: Store, open: seq<Atts>, tokens: seq<Token>)
    requires Mirrors(s.scope, open)
    ensures Run(s, tokens).Some? <==> OpenAfter(open, tokens).Some?
    ensures Run(s, tokens).Some? ==> Mirrors(Run(s, tokens).value.scope, OpenAfter(open, tokens).value)
    decreases |tokens|
  {
    if tokens != [] {
      match tokens[0]
      case StartTag(a) =>
        BindAttsMirror(s.(scope := Element([], s.scope)), a);
        assert (open + [a])[..|open|] == open;
        RunMirrors(Open(s, a), open + [a], tokens[1..]);
      case EmptyElement(a) =>
        RunMirrors(Close(Open(s, a)), open, tokens[1..]);
      case EndTag =>
        if s.scope.Element? { RunMirrors(Close(s), open[..|open| - 1], tokens[1..]); }
    }
  }

  lemma {:induction false} VisibleOwn(scope: Scope, atts: Atts, p: Prefix)
    requires scope.Element? && DeclsMirror(scope.decls, atts)
    ensures match Declared(atts, p)
            case None => Visible(scope, p) == Visible(scope.outer, p)
            case Some(uri) => Visible(scope, p).Some? && Visible(scope, p).value.prefix == p && Visible(scope, p).value.uri == uri
    decreases |atts|
  {
    if atts != [] {
      var n := |atts| - 1;
      DeclaresIff(atts[n].0, p);
      if Declares(atts[n].0) == None {
        VisibleOwn(scope, atts[..n], p);
      } else {
        VisibleOwn(Pop(scope), atts[..n], p);
      }
    }
  }

  lemma {:induction false} VisibleInForce(scope: Scope, open: seq<Atts>, p: Prefix)
    requires Mirrors(scope, open)
    ensures UriOf(Visible(scope, p)) == InForce(open, p)
    ensures Visible(scope, p).Some? ==> Visible(scope, p).value.prefix == p
    decreases scope
  {
    if scope.Element? {
      VisibleInForce(scope.outer, open[..|open| - 1], p);
      VisibleOwn(scope, open[|open| - 1], p);
    }
  }

  /** At any point of any run, every prefix stands for what the innermost declaration around that point says. */
  lemma {:induction false} RunInForce(tokens: seq<Token>, p: Prefix)
    ensures Run(Created(), tokens).Some? <==> OpenAfter([], tokens).Some?
    ensures Run(Created(), tokens).Some? ==>
              UriOf(Visible(Run(Created(), tokens).value.scope, p)) == InForce(OpenAfter([], tokens).value, p)
  {
    RunMirrors(Created(), [], tokens);
    if Run(Created(), tokens).Some? { VisibleInForce(Run(Created(), tokens).value.scope, OpenAfter([], tokens).value, p); }
  }

  // The lists in memory

  function Bound(prefixes: map<Prefix, Link>, p: Prefix): Link { if p in prefixes then prefixes[p] else Null }

  /** With a separator, the name is stored with the separator behind it. */
  function StoredUri(uri: string, separator: Option<char>): string
  {
    if separator == None then uri else uri + [separator.value]
  }

  ghost predicate NodeIs(b: Binding, d: Decl, below: Scope, separator: Option<char>)
  {
    && b.prefix == d.prefix && b.uri == StoredUri(d.uri, separator) && |b.uri| <= b.uriAlloc
    && b.prevPrefixBinding == LinkOf(Visible(below, d.prefix))
  }

  /** `lists` are the heads of the lists of the scope, the innermost last. */
  ghost predicate Linked(nodes: seq<Binding>, separator: Option<char>, lists: seq<Link>, scope: Scope)
    decreases Depth(scope), |scope.decls|
  {
    lists != [] &&
    var outer, head := lists[..|lists| - 1], lists[|lists| - 1];
    if scope.decls == [] then
      && head == Null
      && match scope
         case Inherited(_) => outer == []
         case Element(_, out) => Linked(nodes, separator, outer, out)
    else
      var d := scope.decls[0];
      && head == At(d.node) && d.node < |nodes| && NodeIs(nodes[d.node], d, Pop(scope), separator)
      && Linked(nodes, separator, outer + [nodes[d.node].nextTagBinding], Pop(scope))
  }

  lemma {:induction false} IdsParts(scope: Scope)
    ensures scope.decls != [] ==> scope.decls[0].node in Ids(scope) && forall n :: n in Ids(Pop(scope)) ==> n in Ids(scope)
    ensures scope.decls == [] && scope.Element? ==> Ids(scope) == Ids(scope.outer)
  {
  }

  lemma {:induction false} LinkedFrame(nodes: seq<Binding>, then_: seq<Binding>, separator: Option<char>, lists: seq<Link>, scope: Scope)
    requires Linked(nodes, separator, lists, scope)
    requires forall n :: 0 <= n < |nodes| && n in Ids(scope) ==> n < |then_| && then_[n] == nodes[n]
    ensures Linked(then_, separator, lists, scope)
    decreases Depth(scope), |scope.decls|
  {
    hide Ids; hide NodeIs; hide Visible;
    IdsParts(scope);
    var outer := lists[..|lists| - 1];
    if scope.decls != [] {
      LinkedFrame(nodes, then_, separator, outer + [nodes[scope.decls[0].node].nextTagBinding], Pop(scope));
    } else if scope.Element? {
      LinkedFrame(nodes, then_, separator, outer, scope.outer);
    }
  }

  ghost predicate FreeIs(nodes: seq<Binding>, head: Link, free: seq<nat>)
    decreases |free|
  {
    if free == [] then head == Null
    else
      && head == At(free[0]) && free[0] < |nodes| && |nodes[free[0]].uri| <= nodes[free[0]].uriAlloc
      && FreeIs(nodes, nodes[free[0]].nextTagBinding, free[1..])
  }

  lemma {:induction false} FreeFrame(nodes: seq<Binding>, then_: seq<Binding>, head: Link, free: seq<nat>)
    requires FreeIs(nodes, head, free)
    requires forall n :: 0 <= n < |nodes| && n in free ==> n < |then_| && then_[n] == nodes[n]
    ensures FreeIs(then_, head, free)
    decreases |free|
  {
    if free != [] {
      assert free[0] in free;
      forall n | 0 <= n < |nodes| && n in free[1..] ensures n < |then_| && then_[n] == nodes[n] { assert n in free; }
      FreeFrame(nodes, then_, nodes[free[0]].nextTagBinding, free[1..]);
    }
  }

  /** Every `prefix->binding` is the declaration in force. */
  ghost predicate AllBound(prefixes: map<Prefix, Link>, scope: Scope)
  {
    forall p :: Bound(prefixes, p) == LinkOf(Visible(scope, p))
  }

  lemma {:induction false} PushBound(prefixes: map<Prefix, Link>, scope: Scope, d: Decl)
    requires AllBound(prefixes, scope)
    ensures AllBound(prefixes[d.prefix := LinkOf(Some(d))], Push(scope, d))
  {
    var t, m := Push(scope, d), prefixes[d.prefix := LinkOf(Some(d))];
    assert Pop(t) == scope by { assert ([d] + scope.decls)[1..] == scope.decls; }
    forall p ensures Bound(m, p) == LinkOf(Visible(t, p)) {
      assert Bound(prefixes, p) == LinkOf(Visible(scope, p));
    }
  }

  lemma {:induction false} PopBound(prefixes: map<Prefix, Link>, scope: Scope)
    requires AllBound(prefixes, scope) && scope.decls != []
    ensures AllBound(prefixes[scope.decls[0].prefix := LinkOf(Visible(Pop(scope), scope.decls[0].prefix))], Pop(scope))
  {
    var d := scope.decls[0];
    var m := prefixes[d.prefix := LinkOf(Visible(Pop(scope), d.prefix))];
    forall p ensures Bound(m, p) == LinkOf(Visible(Pop(scope), p)) {
      assert Bound(prefixes, p) == LinkOf(Visible(scope, p));
    }
  }

  lemma {:induction false} FrameBound(prefixes: map<Prefix, Link>, scope: Scope)
    requires AllBound(prefixes, scope)
    ensures AllBound(prefixes, Element([], scope))
    ensures scope.Element? && scope.decls == [] ==> AllBound(prefixes, scope.outer)
  {
    forall p ensures Bound(prefixes, p) == LinkOf(Visible(scope, p)) {}
  }

  /** The free list and the lists of the scope share no node. */
  lemma {:induction false} Apart(s: Store)
    requires Conserved(s)
    ensures forall n :: n in Ids(s.scope) || n in s.free ==> n < s.size
    ensures forall n :: n in Ids(s.scope) ==> n !in s.free
    ensures s.free != [] ==> s.free[0] !in s.free[1..]
    ensures s.scope.decls != [] ==> s.scope.decls[0].node !in Ids(Pop(s.scope))
  {
    forall n: nat ensures (n in Ids(s.scope) || n in s.free ==> n < s.size) && (n in Ids(s.scope) ==> n !in s.free) {
      assert (Ids(s.scope) + multiset(s.free))[n] == if n < s.size then 1 else 0;
    }
    if s.free != [] {
      assert s.free == [s.free[0]] + s.free[1..];
      assert (Ids(s.scope) + multiset(s.free))[s.free[0]] <= 1;
    }
    if s.scope.decls != [] {
      assert (Ids(s.scope) + multiset(s.free))[s.scope.decls[0].node] <= 1;
    }
  }

  ghost predicate InOrder(nodes: seq<Binding>, separator: Option<char>, lists: seq<Link>, free: Link, prefixes: map<Prefix, Link>, s: Store)
  {
    && s.size == |nodes| && Conserved(s)
    && Linked(nodes, separator, lists, s.scope) && FreeIs(nodes, free, s.free) && AllBound(prefixes, s.scope)
  }

  /** A node off the free list is filled in and put in front of the innermost list. */
  lemma {:induction false} ReuseInOrder(nodes: seq<Binding>, separator: Option<char>, outer: seq<Link>, head: Link, free: Link, prefixes: map<Prefix, Link>, s: Store, b: Binding, uri: string)
    requires InOrder(nodes, separator, outer + [head], free, prefixes, s) && free != Null
    requires b.nextTagBinding == head && b.prevPrefixBinding == Bound(prefixes, b.prefix)
    requires b.uri == StoredUri(uri, separator) && |b.uri| <= b.uriAlloc
    ensures free.node < |nodes|
    ensures InOrder(nodes[free.node := b], separator, outer + [free], nodes[free.node].nextTagBinding,
                    prefixes[b.prefix := LinkOf(Some(Decl(free.node, b.prefix, uri)))], Bind(s, b.prefix, uri))
  {
    hide Linked; hide Visible; hide Ids; hide Conserved; hide AllBound; hide StoredUri;
    var then_ := nodes[free.node := b];
    Apart(s);
    BindConserves(s, b.prefix, uri);
    PushBound(prefixes, s.scope, Decl(free.node, b.prefix, uri));
    BoundAt(prefixes, s.scope, b.prefix);
    LinkedFrame(nodes, then_, separator, outer + [head], s.scope);
    FreeFrame(nodes, then_, nodes[free.node].nextTagBinding, s.free[1..]);
    LinkedPush(then_, separator, outer, head, s.scope, Decl(free.node, b.prefix, uri));
  }

  lemma {:induction false} AllocateInOrder(nodes: seq<Binding>, separator: Option<char>, outer: seq<Link>, head: Link, prefixes: map<Prefix, Link>, s: Store, b: Binding, uri: string)
    requires InOrder(nodes, separator, outer + [head], Null, prefixes, s)
    requires b.nextTagBinding == head && b.prevPrefixBinding == Bound(prefixes, b.prefix)
    requires b.uri == StoredUri(uri, separator) && |b.uri| <= b.uriAlloc
    ensures InOrder(nodes + [b], separator, outer + [At(|nodes|)], Null,
                    prefixes[b.prefix := LinkOf(Some(Decl(|nodes|, b.prefix, uri)))], Bind(s, b.prefix, uri))
  {
    hide Linked; hide Visible; hide Ids; hide Conserved; hide AllBound; hide StoredUri;
    var then_ := nodes + [b];
    Apart(s);
    BindConserves(s, b.prefix, uri);
    PushBound(prefixes, s.scope, Decl(|nodes|, b.prefix, uri));
    BoundAt(prefixes, s.scope, b.prefix);
    LinkedFrame(nodes, then_, separator, outer + [head], s.scope);
    LinkedPush(then_, separator, outer, head, s.scope, Decl(|nodes|, b.prefix, uri));
  }

  /** The first node of the innermost list goes to the free list. */
  lemma {:induction false} ReleaseInOrder(nodes: seq<Binding>, separator: Option<char>, outer: seq<Link>, head: Link, free: Link, prefixes: map<Prefix, Link>, s: Store)
    requires InOrder(nodes, separator, outer + [head], free, prefixes, s) && s.scope.decls != []
    ensures head.At? && head.node < |nodes|
    ensures var b := nodes[head.node];
            InOrder(nodes[head.node := b.(nextTagBinding := free)], separator, outer + [b.nextTagBinding], head,
                    prefixes[b.prefix := b.prevPrefixBinding], Unbind(s))
  {
    hide Linked; hide Visible; hide Ids; hide Conserved; hide AllBound; hide StoredUri; hide LinkOf;
    LinkedHead(nodes, separator, outer, head, s.scope);
    var b := nodes[head.node];
    var then_ := nodes[head.node := b.(nextTagBinding := free)];
    var t := Unbind(s);
    Apart(s);
    UnbindConserves(s);
    Apart(t);
    PopBound(prefixes, s.scope);
    LinkedFrame(nodes, then_, separator, outer + [b.nextTagBinding], t.scope);
    assert t.free[1..] == s.free;
    FreeFrame(nodes, then_, free, s.free);
  }

  lemma {:induction false} BoundAt(prefixes: map<Prefix, Link>, scope: Scope, p: Prefix)
    requires AllBound(prefixes, scope)
    ensures Bound(prefixes, p) == LinkOf(Visible(scope, p))
  {
  }

  lemma {:induction false} ListHead(nodes: seq<Binding>, separator: Option<char>, outer: seq<Link>, head: Link, free: Link, prefixes: map<Prefix, Link>, s: Store)
    requires InOrder(nodes, separator, outer + [head], free, prefixes, s)
    ensures head == Null <==> s.scope.decls == []
  {
    LinkedHead(nodes, separator, outer, head, s.scope);
  }

  lemma {:induction false} ReuseRoom(nodes: seq<Binding>, separator: Option<char>, lists: seq<Link>, free: Link, prefixes: map<Prefix, Link>, s: Store)
    requires InOrder(nodes, separator, lists, free, prefixes, s) && free != Null
    ensures free.node < |nodes|
  {
  }

  lemma {:induction false} Stores(uri: string, separator: Option<char>)
    ensures StoredUri(uri, separator) == if separator == None then uri else uri + [separator.value]
  {
  }

  lemma {:induction false} NewLink(n: nat, p: Prefix, uri: string)
    ensures LinkOf(Some(Decl(n, p, uri))) == if uri == "" && p == DefaultPrefix then Null else At(n)
  {
  }

  lemma {:induction false} UnbindAllStep(s: Store)
    ensures s.scope.decls != [] ==> UnbindAll(s) == UnbindAll(Unbind(s)) && |Unbind(s).scope.decls| < |s.scope.decls|
    ensures s.scope.decls == [] ==> UnbindAll(s) == s
  {
  }

  lemma {:induction false} NothingBound(separator: Option<char>)
    ensures var s := Store(Inherited([]), [], 0); InOrder([], separator, [] + [Null], Null, map[], s) && Bind(s, Named("xml"), XML_NAMESPACE) == Created()
  {
    assert [] + [Null] == [Null] && [Null][..0] == [];
  }

  /** The parser's fields for namespaces. */
  class NamespaceScopes {
    const namespaceSeparator: Option<char>
    var nodes: seq<Binding>
    var prefixes: map<Prefix, Link>
    var tagStack: seq<Link>
    var inheritedBindings: Link
    var freeBindingList: Link
    ghost var store: Store

    /** All is in order while `lists` are the lists in use. */
    ghost predicate ValidWith(lists: seq<Link>)
      reads this
    {
      InOrder(nodes, namespaceSeparator, lists, freeBindingList, prefixes, store)
    }

    ghost predicate Valid()
      reads this
    {
      ValidWith([inheritedBindings] + tagStack)
    }

    /** XML_ParserCreateNS. */
    constructor (separator: Option<char>)
      ensures Valid() && store == Created() && tagStack == [] && namespaceSeparator == separator
    {
      namespaceSeparator := separator;
      nodes, prefixes, tagStack := [], map[], [];
      inheritedBindings, freeBindingList := Null, Null;
      store := Store(Inherited([]), [], 0);
      new;
      hide InOrder; hide Bind; hide Created;
      NothingBound(separator);
      inheritedBindings := AddBinding(Named("xml"), XML_NAMESPACE, inheritedBindings, []);
      assert [inheritedBindings] + tagStack == [] + [inheritedBindings];
    }

    method AddBinding(prefix: Prefix, uri: string, bindings: Link, ghost outer: seq<Link>) returns (b: Link)
      requires ValidWith(outer + [bindings])
      modifies `nodes, `prefixes, `freeBindingList, `store
      ensures ValidWith(outer + [b]) && store == Bind(old(store), prefix, uri)
    {
      hide InOrder; hide Bind; hide LinkOf; hide StoredUri;
      var stored := if namespaceSeparator == None then uri else uri + [namespaceSeparator.value];
      Stores(uri, namespaceSeparator);
      var len := |stored|;
      if freeBindingList != Null {
        var n := freeBindingList.node;
        ReuseRoom(nodes, namespaceSeparator, outer + [bindings], freeBindingList, prefixes, store);
        var uriAlloc := nodes[n].uriAlloc;
        if len > uriAlloc { uriAlloc := len + EXPAND_SPARE; }
        var node := Binding(prefix, bindings, Bound(prefixes, prefix), stored, uriAlloc);
        ReuseInOrder(nodes, namespaceSeparator, outer, bindings, freeBindingList, prefixes, store, node, uri);
        b := freeBindingList;
        freeBindingList := nodes[n].nextTagBinding;
        nodes := nodes[n := node];
      } else {
        b := At(|nodes|);
        var node := Binding(prefix, bindings, Bound(prefixes, prefix), stored, len);
        AllocateInOrder(nodes, namespaceSeparator, outer, bindings, prefixes, store, node, uri);
        nodes := nodes + [node];
      }
      NewLink(b.node, prefix, uri);
      prefixes := prefixes[prefix := if uri == "" && prefix == DefaultPrefix then Null else b];
      store := Bind(store, prefix, uri);
    }

    /** What storeAtts does with the attributes that declare prefixes. */
    method StoreDeclarations(atts: Atts, bindings: Link, ghost outer: seq<Link>) returns (b: Link)
      requires ValidWith(outer + [bindings])
      modifies `nodes, `prefixes, `freeBindingList, `store
      ensures ValidWith(outer + [b]) && store == BindAtts(old(store), atts)
    {
      b := bindings;
      assert atts[..0] == [];
      for i := 0 to |atts|
        invariant ValidWith(outer + [b]) && store == BindAtts(old(store), atts[..i])
      {
        assert atts[..i + 1][..i] == atts[..i];
        var declared := Declares(atts[i].0);
        if declared.Some? { b := AddBinding(declared.value, atts[i].1, b, outer); }
      }
      assert atts[..|atts|] == atts;
    }

    /** The loop that ends an element: every node of its list goes to the free list, and its prefix back to what it was. */
    method CloseBindings(list: Link, ghost outer: seq<Link>)
      requires ValidWith(outer + [list])
      modifies `nodes, `prefixes, `freeBindingList, `store
      ensures ValidWith(outer + [Null]) && store == UnbindAll(old(store))
    {
      hide InOrder; hide Unbind; hide UnbindAll;
      var bindings := list;
      ListHead(nodes, namespaceSeparator, outer, bindings, freeBindingList, prefixes, store);
      while bindings != Null
        invariant ValidWith(outer + [bindings]) && UnbindAll(store) == UnbindAll(old(store))
        invariant bindings == Null <==> store.scope.decls == []
        decreases |store.scope.decls|
      {
        UnbindAllStep(store);
        ReleaseInOrder(nodes, namespaceSeparator, outer, bindings, freeBindingList, prefixes, store);
        var n := bindings.node;
        var next := nodes[n].nextTagBinding;
        prefixes := prefixes[nodes[n].prefix := nodes[n].prevPrefixBinding];
        nodes := nodes[n := nodes[n].(nextTagBinding := freeBindingList)];
        freeBindingList := bindings;
        bindings := next;
        store := Unbind(store);
        ListHead(nodes, namespaceSeparator, outer, bindings, freeBindingList, prefixes, store);
      }
      UnbindAllStep(store);
    }

    /** The start tag of an element with content. */
    method OpenElement(atts: Atts)
      requires Valid()
      modifies this
      ensures Valid() && store == Open(old(store), atts) && |tagStack| == |old(tagStack)| + 1
    {
      ghost var outer := [inheritedBindings] + tagStack;
      LinkedFrameOpen(nodes, namespaceSeparator, outer, store);
      FrameBound(prefixes, store.scope);
      store := store.(scope := Element([], store.scope));
      var bindings := StoreDeclarations(atts, Null, outer);
      tagStack := tagStack + [bindings];
      assert outer + [bindings] == [inheritedBindings] + tagStack;
    }

    method CloseElement() returns (ok: bool)
      requires Valid()
      modifies this
      ensures Valid() && ok == old(store).scope.Element?
      ensures store == if ok then Close(old(store)) else old(store)
    {
      LinkedCount(nodes, namespaceSeparator, [inheritedBindings] + tagStack, store.scope);
      if |tagStack| == 0 { return false; }
      var bindings := tagStack[|tagStack| - 1];
      tagStack := tagStack[..|tagStack| - 1];
      ghost var outer := [inheritedBindings] + tagStack;
      assert outer + [bindings] == [inheritedBindings] + old(tagStack);
      CloseBindings(bindings, outer);
      LinkedFrameClose(nodes, namespaceSeparator, outer, store);
      FrameBound(prefixes, store.scope);
      store := store.(scope := store.scope.outer);
      ok := true;
    }

    /** An empty element: its list is a local variable. */
    method EmptyElementTag(atts: Atts)
      requires Valid()
      modifies this
      ensures Valid() && store == Close(Open(old(store), atts))
    {
      ghost var outer := [inheritedBindings] + tagStack;
      LinkedFrameOpen(nodes, namespaceSeparator, outer, store);
      FrameBound(prefixes, store.scope);
      store := store.(scope := Element([], store.scope));
      var bindings := StoreDeclarations(atts, Null, outer);
      CloseBindings(bindings, outer);
      LinkedFrameClose(nodes, namespaceSeparator, outer, store);
      FrameBound(prefixes, store.scope);
      store := store.(scope := store.scope.outer);
    }

    /** doContent, for the tokens that open and close elements. */
    method Content(tokens: seq<Token>) returns (ok: bool)
      requires Valid()
      modifies this
      ensures Valid() && ok == Run(old(store), tokens).Some?
      ensures ok ==> store == Run(old(store), tokens).value
      ensures Nested(0, tokens) ==> ok && forall p :: Bound(prefixes, p) == Bound(old(prefixes), p)
    {
      ghost var start := store;
      var i := 0;
      while i < |tokens|
        invariant i <= |tokens| && Valid() && Run(start, tokens) == Run(store, tokens[i..])
        decreases |tokens| - i
      {
        assert tokens[i..][1..] == tokens[i + 1..];
        match tokens[i] {
          case StartTag(a) => OpenElement(a);
          case EmptyElement(a) => EmptyElementTag(a);
          case EndTag =>
            var closed := CloseElement();
            if !closed {
              if Nested(0, tokens) { NestedRestores(start, tokens); }
              return false;
            }
        }
        i := i + 1;
      }
      if Nested(0, tokens) { NestedRestores(start, tokens); }
      ok := true;
    }
  }

  lemma {:induction false} LinkedPush(nodes: seq<Binding>, separator: Option<char>, outer: seq<Link>, head: Link, scope: Scope, d: Decl)
    requires Linked(nodes, separator, outer + [head], scope)
    requires d.node < |nodes| && NodeIs(nodes[d.node], d, scope, separator) && nodes[d.node].nextTagBinding == head
    ensures Linked(nodes, separator, outer + [At(d.node)], Push(scope, d))
  {
    assert Pop(Push(scope, d)) == scope by { assert ([d] + scope.decls)[1..] == scope.decls; }
    assert (outer + [At(d.node)])[..|outer|] == outer;
  }

  lemma {:induction false} LinkedHead(nodes: seq<Binding>, separator: Option<char>, outer: seq<Link>, head: Link, scope: Scope)
    requires Linked(nodes, separator, outer + [head], scope)
    ensures head == Null <==> scope.decls == []
    ensures scope.decls != [] ==>
              var d := scope.decls[0];
              && head == At(d.node) && d.node < |nodes| && NodeIs(nodes[d.node], d, Pop(scope), separator)
              && Linked(nodes, separator, outer + [nodes[d.node].nextTagBinding], Pop(scope))
  {
    assert (outer + [head])[..|outer|] == outer;
  }

  lemma {:induction false} LinkedFrameOpen(nodes: seq<Binding>, separator: Option<char>, lists: seq<Link>, s: Store)
    requires Linked(nodes, separator, lists, s.scope) && Conserved(s)
    ensures Linked(nodes, separator, lists + [Null], Element([], s.scope)) && Conserved(s.(scope := Element([], s.scope)))
  {
    assert (lists + [Null])[..|lists|] == lists;
    assert Ids(Element([], s.scope)) == Ids(s.scope);
  }

  lemma {:induction false} LinkedFrameClose(nodes: seq<Binding>, separator: Option<char>, lists: seq<Link>, s: Store)
    requires s.scope.Element? && s.scope.decls == [] && Linked(nodes, separator, lists + [Null], s.scope) && Conserved(s)
    ensures Linked(nodes, separator, lists, s.scope.outer) && Conserved(s.(scope := s.scope.outer))
  {
    assert (lists + [Null])[..|lists|] == lists;
    assert Ids(s.scope) == Ids(s.scope.outer);
  }

  lemma {:induction false} LinkedCount(nodes: seq<Binding>, separator: Option<char>, lists: seq<Link>, scope: Scope)
    requires Linked(nodes, separator, lists, scope)
    ensures |lists| == Depth(scope) + 1
    decreases Depth(scope), |scope.decls|
  {
    var outer := lists[..|lists| - 1];
    if scope.decls != [] {
      LinkedCount(nodes, separator, outer + [nodes[scope.decls[0].node].nextTagBinding], Pop(scope));
    } else if scope.Element? {
      LinkedCount(nodes, separator, outer, scope.outer);
    }
  }
}
