/**
 The tree that xmlnode_str builds from any document: one root, whose own events
 are those of the document (libjabber/expat.c:22-89).
 */
module XmlBuilt {
  import opened XmlScan
  import opened XmlTok
  import opened XmlAtts
  import opened XmlValue
  import opened XmlContent
  import opened XmlChunks
  import opened XmlNesting
  import opened XmlTree

  // ---- Attributes are unique ----

  predicate UniqueStart(e: Event) { e.StartElement? ==> Unique(e.atts) }

  predicate UniqueStarts(events: seq<Event>) { forall i :: 0 <= i < |events| ==> UniqueStart(events[i]) }

  lemma {:induction false} StoredUnique(internal: Encoding, dtd: Dtd, open: set<string>, enc: Encoding, tag: string,
                                        defaults: seq<DefaultAtt>, list: seq<Attribute>, atts: seq<(string, string)>)
    requires Unique(atts)
    ensures var r := StoreEach(internal, dtd, open, enc, tag, defaults, list, atts); r.Stored? ==> Unique(r.atts)
    decreases |list|
  {
    hide StoreValue; hide NameAt; hide Slice; hide IsCdata;
    if list != [] {
      var name := NameAt(enc, tag, list[0].name);
      var raw := Slice(tag, list[0].valuePtr, list[0].valueEnd);
      var v := if list[0].normalized then Value(raw) else StoreValue(internal, dtd, open, enc, IsCdata(defaults, name), raw);
      if !Has(atts, name) && v.Value? {
        StoredUnique(internal, dtd, open, enc, tag, defaults, list[1..], atts + [(name, v.text)]);
      }
    }
  }

  lemma {:induction false} DefaultsUnique(defaults: seq<DefaultAtt>, atts: seq<(string, string)>)
    requires Unique(atts)
    ensures Unique(AddDefaults(defaults, atts))
    decreases |defaults|
  {
    if defaults != [] {
      var d := defaults[0];
      DefaultsUnique(defaults[1..], if !Has(atts, d.name) && d.hasValue then atts + [(d.name, d.value)] else atts);
    }
  }

  lemma {:induction false} TagUnique(env: Env, prolog: Prolog, open: set<string>, enc: Encoding, tags: seq<string>, token: string, empty: bool)
    ensures UniqueStarts(XmlContent.Tag(env, prolog, open, enc, tags, token, empty).events)
  {
    hide StoreEach; hide NameAt; hide GetAtts; hide AddDefaults; hide Unique;
    var defaults := Defaults(prolog.dtd, NameAt(enc, token, 1));
    var l := GetAtts(enc, token, 1, GETTER_START);
    if l.Atts? {
      assert Unique([]) by { NoneUnique(); }
      StoredUnique(env.internal, prolog.dtd, open, enc, token, defaults, l.list, []);
      var r := StoreEach(env.internal, prolog.dtd, open, enc, token, defaults, l.list, []);
      if r.Stored? { DefaultsUnique(defaults, r.atts); }
    }
  }

  lemma {:induction false} NoneUnique()
    ensures Unique([])
  {
  }

  lemma {:induction false} TextUnique(s: string)
    ensures UniqueStarts(CharBytes(s))
  {
  }

  lemma {:induction false} ConcatUnique(a: seq<Event>, b: seq<Event>)
    requires UniqueStarts(a) && UniqueStarts(b)
    ensures UniqueStarts(a + b)
  {
  }

  lemma {:induction false} OneUnique(e: Event)
    requires !e.StartElement?
    ensures UniqueStarts([e]) && UniqueStarts([])
  {
  }

  /** What an entity reference leads to, if its text does. */
  lemma {:induction false} ExpandUnique(env: Env, prolog: Prolog, open: set<string>, tags: seq<string>, name: string)
    requires name in prolog.dtd.entities && prolog.dtd.entities[name].Internal? && name !in open ==>
               UniqueStarts(Content(env, prolog, open + {name}, env.internal, |tags|, tags, prolog.dtd.entities[name].text, true).events)
    ensures UniqueStarts(Expand(env, prolog, open, tags, name).events)
  {
    hide Content; hide PredefinedEntityName;
  }

  lemma {:induction false} HandleUnique(env: Env, prolog: Prolog, open: set<string>, enc: Encoding, base: nat, tags: seq<string>, tok: Token, token: string)
    requires tok == EntityRef ==> UniqueStarts(Expand(env, prolog, open, tags, Inner(token)).events)
    ensures UniqueStarts(Handle(env, prolog, open, enc, base, tags, tok, token).events)
  {
    hide Expand; hide XmlContent.Tag; hide CharRefNumber; hide Utf8Encode; hide NameAt;
    if TextTok(tok) {
      hide Handle; hide UniqueStarts;
      var text := TextOf(env, prolog, open, enc, base, tags, tok, token);
      TextUnique(text);
      FailsSilently(env, prolog, open, enc, base, tags, tok, token);
    } else if StartTag(tok) {
      TagUnique(env, prolog, open, enc, tags, token, Closes(tok));
    }
  }

  lemma {:induction false} FailsSilently(env: Env, prolog: Prolog, open: set<string>, enc: Encoding, base: nat, tags: seq<string>, tok: Token, token: string)
    requires TextTok(tok)
    ensures var h := Handle(env, prolog, open, enc, base, tags, tok, token); h.outcome.Failed? ==> UniqueStarts(h.events)
  {
    hide CharRefNumber; hide Utf8Encode;
  }

  lemma {:induction false} EpilogUnique(env: Env, prolog: Prolog, tags: seq<string>, w: string, final: bool)
    ensures UniqueStarts(Epilog(env, prolog, tags, w, final).events)
    decreases |w|
  {
    hide PrologTok;
    var v := PrologTok(env.enc, w);
    if v.Tok? && (v.tok == PrologS || v.tok == Pi || v.tok == Comment) { EpilogUnique(env, prolog, tags, w[v.next..], final); }
  }

  lemma {:induction false} NoTokenUnique(env: Env, prolog: Prolog, open: set<string>, enc: Encoding, base: nat, tags: seq<string>, w: string, final: bool)
    requires !ContentTok(enc, w).Tok?
    ensures UniqueStarts(Content(env, prolog, open, enc, base, tags, w, final).events)
  {
    hide ContentTok;
  }

  /** Behind a token. */
  lemma {:induction false} RestUnique(env: Env, prolog: Prolog, open: set<string>, enc: Encoding, base: nat, tags: seq<string>, w: string, final: bool, h: Result)
    requires var v := ContentTok(enc, w);
             && v.Tok? && v.tok != CdataSectOpen && h == Handle(env, prolog, open, enc, base, tags, v.tok, w[..v.next]) && UniqueStarts(h.events)
             && (h.outcome.Stopped? ==> UniqueStarts(Content(env, prolog, open, enc, base, h.outcome.tags, w[v.next..], final).events))
    ensures UniqueStarts(Content(env, prolog, open, enc, base, tags, w, final).events)
  {
    hide *;
    ContentOfToken(env, prolog, open, enc, base, tags, w, final);
    var v := ContentTok(enc, w);
    var rest := w[v.next..];
    if h.outcome.Stopped? {
      var tags' := h.outcome.tags;
      var r := if tags' == [] && Closes(v.tok) then Epilog(env, prolog, tags', rest, final) else Content(env, prolog, open, enc, base, tags', rest, final);
      EpilogUnique(env, prolog, tags', rest, final);
      ConcatUnique(h.events, r.events);
      AfterIs(env, prolog, open, enc, base, v.tok, h, rest, final);
    } else {
      AfterIs(env, prolog, open, enc, base, v.tok, h, rest, final);
    }
  }

  lemma {:induction false} AfterIs(env: Env, prolog: Prolog, open: set<string>, enc: Encoding, base: nat, tok: Token, h: Result, rest: string, final: bool)
    ensures AfterToken(env, prolog, open, enc, base, tok, h, rest, final).events ==
              if h.outcome.Failed? then h.events
              else h.events + (if h.outcome.tags == [] && Closes(tok) then Epilog(env, prolog, h.outcome.tags, rest, final)
                               else Content(env, prolog, open, enc, base, h.outcome.tags, rest, final)).events
  {
    hide Epilog; hide Content;
  }

  lemma {:induction false} ContentUnique(env: Env, prolog: Prolog, open: set<string>, enc: Encoding, base: nat, tags: seq<string>, w: string, final: bool)
    ensures UniqueStarts(Content(env, prolog, open, enc, base, tags, w, final).events)
    decreases Unopened(prolog, open), |w|
  {
    hide ContentTok; hide Content; hide UniqueStarts; hide Handle; hide Expand;
    var v := ContentTok(enc, w);
    if !v.Tok? {
      NoTokenUnique(env, prolog, open, enc, base, tags, w, final);
    } else if v.tok == CdataSectOpen {
      CdataUnique(env, prolog, open, enc, base, tags, w[v.next..], final);
      ContentOfToken(env, prolog, open, enc, base, tags, w, final);
    } else {
      var token := w[..v.next];
      var name := Inner(token);
      var entities := prolog.dtd.entities;
      if name in entities && entities[name].Internal? && name !in open {
        OneOpened(prolog, open, name);
        ContentUnique(env, prolog, open + {name}, env.internal, |tags|, tags, entities[name].text, true);
      }
      ExpandUnique(env, prolog, open, tags, name);
      HandleUnique(env, prolog, open, enc, base, tags, v.tok, token);
      var h := Handle(env, prolog, open, enc, base, tags, v.tok, token);
      if h.outcome.Stopped? { ContentUnique(env, prolog, open, enc, base, h.outcome.tags, w[v.next..], final); }
      RestUnique(env, prolog, open, enc, base, tags, w, final, h);
    }
  }

  lemma {:induction false} CdataUnique(env: Env, prolog: Prolog, open: set<string>, enc: Encoding, base: nat, tags: seq<string>, w: string, final: bool)
    ensures UniqueStarts(Cdata(env, prolog, open, enc, base, tags, w, final).events)
    decreases Unopened(prolog, open), |w|
  {
    hide CdataTok; hide Content;
    var v := CdataTok(enc, w);
    if v.Tok? {
      ContentUnique(env, prolog, open, enc, base, tags, w[v.next..], final);
      CdataUnique(env, prolog, open, enc, base, tags, w[v.next..], final);
      TextUnique(w[..v.next]);
      OneUnique(CharByte('\n'));
      ConcatUnique(if v.tok == DataNewline then [CharByte('\n')] else CharBytes(w[..v.next]), Cdata(env, prolog, open, enc, base, tags, w[v.next..], final).events);
    }
  }

  lemma {:induction false} PrologUnique(env: Env, prolog: Prolog, w: string, final: bool)
    ensures UniqueStarts(ProcessProlog(env, prolog, w, final).events)
    decreases |w|
  {
    hide PrologTok; hide Content; hide UniqueStarts;
    var v := PrologTok(env.enc, w);
    if v.Tok? {
      var a := env.role(prolog, v.tok, w[..v.next]);
      if a.StartInstance? { ContentUnique(env, a.prolog, {}, env.enc, 0, [], w, final); }
      if a.Continue? && v.next > 0 { PrologUnique(env, a.prolog, w[v.next..], final); }
    }
    OneUnique(EndElement(""));
  }

  // ---- The tree has the events it was built from ----

  lemma {:induction false} EventsOfConcat(a: seq<Tree>, b: seq<Tree>)
    ensures EventsOfAll(a + b) == EventsOfAll(a) + EventsOfAll(b)
    decreases |a|
  {
    hide EventsOf;
    if a == [] {
      assert a + b == b;
    } else {
      assert (a + b)[1..] == a[1..] + b;
      EventsOfConcat(a[1..], b);
    }
  }

  lemma {:induction false} EventsOfOne(t: Tree)
    ensures EventsOfAll([t]) == EventsOf(t)
  {
    assert [t][1..] == [];
  }

  lemma {:induction false} EventsOfAddText(kids: seq<Tree>, c: char)
    ensures EventsOfAll(AddText(kids, [c])) == EventsOfAll(kids) + [CharByte(c)]
  {
    assert CharBytes([c]) == [CharByte(c)];
    if kids != [] && kids[|kids| - 1].Text? {
      var low, last := kids[..|kids| - 1], kids[|kids| - 1];
      assert kids == low + [last];
      EventsOfConcat(low, [last]);
      EventsOfConcat(low, [Text(last.data + [c])]);
      EventsOfOne(last);
      EventsOfOne(Text(last.data + [c]));
      assert CharBytes(last.data + [c]) == CharBytes(last.data) + [CharByte(c)];
    } else {
      EventsOfConcat(kids, [Text([c])]);
      EventsOfOne(Text([c]));
    }
  }

  /** The events that led to the open elements and what they hold. */
  function Unwound(stack: seq<Frame>): seq<Event>
    decreases |stack|
  {
    if stack == [] then []
    else
      var f := stack[|stack| - 1];
      Unwound(stack[..|stack| - 1]) + [StartElement(f.name, f.atts)] + EventsOfAll(f.kids)
  }

  function Names(stack: seq<Frame>): (r: seq<string>)
    ensures |r| == |stack| && forall i :: 0 <= i < |r| ==> r[i] == stack[i].name
  {
    seq(|stack|, i requires 0 <= i < |stack| => stack[i].name)
  }

  lemma {:induction false} UnwoundPush(stack: seq<Frame>, f: Frame)
    ensures Unwound(stack + [f]) == Unwound(stack) + [StartElement(f.name, f.atts)] + EventsOfAll(f.kids)
  {
    assert (stack + [f])[..|stack|] == stack;
  }

  lemma {:induction false} PushStep(stack: seq<Frame>, name: string, atts: seq<(string, string)>)
    requires Unique(atts)
    ensures BuildStep(stack, StartElement(name, atts)) == stack + [Frame(name, atts, [])]
    ensures Unwound(stack + [Frame(name, atts, [])]) == Unwound(stack) + [StartElement(name, atts)]
    ensures Names(stack + [Frame(name, atts, [])]) == Names(stack) + [name]
  {
    assert [] + atts == atts;
    PutUnique([], atts);
    UnwoundPush(stack, Frame(name, atts, []));
  }

  lemma {:induction false} TextStep(stack: seq<Frame>, c: char)
    requires stack != []
    ensures var s := BuildStep(stack, CharByte(c)); Unwound(s) == Unwound(stack) + [CharByte(c)] && Names(s) == Names(stack)
  {
    var low, f := stack[..|stack| - 1], stack[|stack| - 1];
    assert stack == low + [f];
    EventsOfAddText(f.kids, c);
    UnwoundPush(low, f);
    UnwoundPush(low, f.(kids := AddText(f.kids, [c])));
  }

  lemma {:induction false} PopUnwound(low: seq<Frame>, f: Frame, top: Frame)
    ensures var t := Tree.Tag(top.name, top.atts, top.kids);
            Unwound(low + [f.(kids := f.kids + [t])]) == Unwound(low + [f] + [top]) + [EndElement(top.name)]
  {
    hide Unwound; hide EventsOfAll;
    var t := Tree.Tag(top.name, top.atts, top.kids);
    UnwoundPush(low + [f], top);
    UnwoundPush(low, f);
    UnwoundPush(low, f.(kids := f.kids + [t]));
    EventsOfConcat(f.kids, [t]);
    EventsOfOne(t);
    var a, b := Unwound(low) + [StartElement(f.name, f.atts)], EventsOfAll(f.kids);
    var c := [StartElement(top.name, top.atts)] + EventsOfAll(top.kids);
    assert a + (b + (c + [EndElement(top.name)])) == a + b + c + [EndElement(top.name)];
    assert a + b + [StartElement(top.name, top.atts)] + EventsOfAll(top.kids) == a + b + c;
  }

  lemma {:induction false} PopStep(stack: seq<Frame>)
    requires |stack| > 1
    ensures var e := EndElement(stack[|stack| - 1].name); var s := BuildStep(stack, e);
            Unwound(s) == Unwound(stack) + [e] && Names(s) == Names(stack)[..|stack| - 1]
  {
    hide Unwound;
    var low, f, top := stack[..|stack| - 2], stack[|stack| - 2], stack[|stack| - 1];
    PopUnwound(low, f, top);
    assert stack == low + [f] + [top];
    PopIs(low, f, top);
  }

  lemma {:induction false} PopIs(low: seq<Frame>, f: Frame, top: Frame)
    ensures var s := BuildStep(low + [f] + [top], EndElement(top.name));
            && s == low + [f.(kids := f.kids + [Tree.Tag(top.name, top.atts, top.kids)])]
            && Names(s) == Names(low + [f] + [top])[..|low| + 1]
  {
    var stack := low + [f] + [top];
    assert stack[..|stack| - 1] == low + [f];
    assert (low + [f])[..|low|] == low;
  }

  /** From an open element on. */
  lemma {:induction false} BuiltFrom(stack: seq<Frame>, e: seq<Event>)
    requires stack != [] && UniqueStarts(e) && Track(0, DocState(Names(stack), false), e) == Some(DocState([], true))
    ensures var s := Build(stack, e); |s| == 1 && EventsOf(Tree.Tag(s[0].name, s[0].atts, s[0].kids)) == Unwound(stack) + e
    decreases |e|
  {
    hide BuildStep; hide EventsOf; hide Unwound; hide Names; hide Unique; hide UniqueStarts;
    var s := BuildStep(stack, e[0]);
    assert e == [e[0]] + e[1..];
    UniqueRest(e);
    match e[0]
    case StartElement(name, atts) =>
      PushStep(stack, name, atts);
      BuiltFrom(s, e[1..]);
      assert Unwound(stack) + [e[0]] + e[1..] == Unwound(stack) + e;
    case CharByte(c) =>
      TextStep(stack, c);
      assert s != [] by { NamesLength(s, stack); }
      BuiltFrom(s, e[1..]);
      assert Unwound(stack) + [e[0]] + e[1..] == Unwound(stack) + e;
    case EndElement(name) =>
      if |stack| > 1 {
        PopStep(stack);
        assert s != [] by { assert |Names(s)| == |s|; }
        BuiltFrom(s, e[1..]);
        assert Unwound(stack) + [e[0]] + e[1..] == Unwound(stack) + e;
      } else {
        RootClosed(stack, e);
      }
  }

  lemma {:induction false} UniqueRest(e: seq<Event>)
    requires e != [] && UniqueStarts(e)
    ensures UniqueStart(e[0]) && UniqueStarts(e[1..])
  {
  }

  lemma {:induction false} NamesLength(a: seq<Frame>, b: seq<Frame>)
    requires Names(a) == Names(b)
    ensures |a| == |b|
  {
    assert |Names(a)| == |a| && |Names(b)| == |b|;
  }

  lemma {:induction false} NothingAfterRoot(e: seq<Event>)
    requires Track(0, DocState([], true), e).Some?
    ensures e == []
  {
  }

  lemma {:induction false} RootClosed(stack: seq<Frame>, e: seq<Event>)
    requires |stack| == 1 && e != [] && e[0].EndElement? && Track(0, DocState(Names(stack), false), e) == Some(DocState([], true))
    ensures var s := Build(stack, e); s == stack && EventsOf(Tree.Tag(s[0].name, s[0].atts, s[0].kids)) == Unwound(stack) + e
  {
    assert Names(stack)[..0] == [];
    NothingAfterRoot(e[1..]);
    assert e == [e[0]];
    assert stack == [] + [stack[0]];
    UnwoundPush([], stack[0]);
  }

  /** For every document that parses, in whatever chunks: one root is built, and its events are the document's. */
  lemma {:induction false} DocumentBuilt(env: Env, prolog: Prolog, chunks: seq<string>, last: string)
    requires RoleLaws(env)
    ensures var r := Parse(env, PrologPhase, prolog, [], "", chunks, last); var s := Build([], r.events);
            r.outcome.Stopped? ==> |s| == 1 && EventsOf(Tree.Tag(s[0].name, s[0].atts, s[0].kids)) == r.events
  {
    hide RoleLaws; hide Parse; hide ProcessProlog; hide EventsOf; hide UniqueStarts; hide BuildStep; hide Unwound;
    var r := Parse(env, PrologPhase, prolog, [], "", chunks, last);
    if r.outcome.Stopped? {
      DocumentNested(env, prolog, chunks, last);
      ParseExtends(env, PrologPhase, prolog, [], "", chunks, last);
      PrologUnique(env, prolog, "" + (Concat(chunks) + last), true);
      assert UniqueStarts(r.events);
      FirstElement(r.events);
    }
  }

  lemma {:induction false} FirstElement(e: seq<Event>)
    requires UniqueStarts(e) && Track(0, DocState([], false), e) == Some(DocState([], true))
    ensures var s := Build([], e); |s| == 1 && EventsOf(Tree.Tag(s[0].name, s[0].atts, s[0].kids)) == e
  {
    hide EventsOf; hide Unique;
    UniqueRest(e);
    var s := [Frame(e[0].name, e[0].atts, [])];
    PushStep([], e[0].name, e[0].atts);
    assert [] + s == s && Names([]) == [];
    assert e == [e[0]] + e[1..];
    BuiltFrom(s, e[1..]);
  }
}
