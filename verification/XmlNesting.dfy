/**
 Well-formedness of what the handlers see (section 2.1 and production 39 of
 XML 1.0): in every run without an error the element events form one properly
 nested, name-matched root, all text is inside it, and the text of every
 internal entity is balanced by itself (section 4.3.2)
 (libjabber/xmlparse.c:1114-1190, 1198-1360).
 */
module XmlNesting {
  import opened XmlScan
  import opened XmlTok
  import opened XmlAtts
  import opened XmlValue
  import opened XmlContent
  import opened XmlChunks

  /** The open elements, and whether the root has been closed. */
  datatype DocState = DocState(tags: seq<string>, closed: bool)

  /** Checks one event after the other: an element may not be opened after the root, text may not stand outside it, and an
      element is closed under its own name, never below `base`. */
  function Track(base: nat, st: DocState, events: seq<Event>): Option<DocState>
    decreases |events|
  {
    if events == [] then Some(st)
    else
      match events[0]
      case StartElement(name, _) => if st.closed then None else Track(base, DocState(st.tags + [name], false), events[1..])
      case CharByte(_) => if st.tags == [] then None else Track(base, st, events[1..])
      case EndElement(name) =>
        if |st.tags| <= base || st.tags[|st.tags| - 1] != name then None
        else
          var tags := st.tags[..|st.tags| - 1];
          Track(base, DocState(tags, tags == []), events[1..])
  }

  lemma {:induction false} TrackConcat(base: nat, st: DocState, a: seq<Event>, b: seq<Event>)
    ensures Track(base, st, a + b) == (match Track(base, st, a) case None => None case Some(st') => Track(base, st', b))
    decreases |a|
  {
    if a == [] {
      assert a + b == b;
    } else {
      assert (a + b)[1..] == a[1..] + b;
      match a[0]
      case StartElement(name, _) => TrackConcat(base, DocState(st.tags + [name], false), a[1..], b);
      case CharByte(_) => TrackConcat(base, st, a[1..], b);
      case EndElement(name) =>
        if |st.tags| > 0 {
          var tags := st.tags[..|st.tags| - 1];
          TrackConcat(base, DocState(tags, tags == []), a[1..], b);
        }
    }
  }

  lemma {:induction false} TrackText(base: nat, st: DocState, s: string)
    requires st.tags != []
    ensures Track(base, st, CharBytes(s)) == Some(st)
    decreases |s|
  {
    if s != "" {
      assert CharBytes(s)[1..] == CharBytes(s[1..]);
      TrackText(base, st, s[1..]);
    }
  }

  /** What is below the base is not touched. */
  lemma {:induction false} TrackKeepsBase(base: nat, st: DocState, events: seq<Event>)
    requires base <= |st.tags| && Track(base, st, events).Some?
    ensures var st' := Track(base, st, events).value; base <= |st'.tags| && st'.tags[..base] == st.tags[..base]
    decreases |events|
  {
    if events != [] {
      match events[0]
      case StartElement(name, _) => TrackKeepsBase(base, DocState(st.tags + [name], false), events[1..]);
      case CharByte(_) => TrackKeepsBase(base, st, events[1..]);
      case EndElement(name) =>
        var tags := st.tags[..|st.tags| - 1];
        TrackKeepsBase(base, DocState(tags, tags == []), events[1..]);
    }
  }

  /** Balanced by itself: accepted inside any open element, with the same elements open afterwards. */
  ghost predicate Balanced(events: seq<Event>)
  {
    forall tags: seq<string> :: tags != [] ==> Track(|tags|, DocState(tags, false), events) == Some(DocState(tags, false))
  }

  lemma {:induction false} TrackElsewhere(low: seq<string>, low': seq<string>, up: seq<string>, events: seq<Event>)
    requires low != [] && low' != []
    ensures match Track(|low|, DocState(low + up, false), events)
            case None => Track(|low'|, DocState(low' + up, false), events) == None
            case Some(st) => |low| <= |st.tags| && st.tags[..|low|] == low && !st.closed
                             && Track(|low'|, DocState(low' + up, false), events) == Some(DocState(low' + st.tags[|low|..], false))
    decreases |events|
  {
    if events == [] {
      assert (low + up)[|low|..] == up;
    } else {
      match events[0]
      case StartElement(name, _) =>
        assert low + up + [name] == low + (up + [name]) && low' + up + [name] == low' + (up + [name]);
        TrackElsewhere(low, low', up + [name], events[1..]);
      case CharByte(_) => TrackElsewhere(low, low', up, events[1..]);
      case EndElement(name) =>
        if up != [] && up[|up| - 1] == name {
          var up' := up[..|up| - 1];
          assert (low + up)[..|low + up| - 1] == low + up' && (low' + up)[..|low' + up| - 1] == low' + up';
          TrackElsewhere(low, low', up', events[1..]);
        }
    }
  }

  lemma {:induction false} BalancedSomewhere(tags: seq<string>, events: seq<Event>)
    requires tags != [] && Track(|tags|, DocState(tags, false), events) == Some(DocState(tags, false))
    ensures Balanced(events)
  {
    forall tags': seq<string> | tags' != [] ensures Track(|tags'|, DocState(tags', false), events) == Some(DocState(tags', false)) {
      TrackElsewhere(tags, tags', [], events);
      assert tags + [] == tags && tags' + [] == tags' && tags[|tags|..] == [];
    }
  }

  // ---- The root ----

  predicate AtRoot(enc: Encoding, w: string) { PrologTok(enc, w) == Tok(InstanceStart, 0) }

  ghost predicate StaysInTag(enc: Encoding, q: State, w: string)
    requires w != ""
  {
    var a := Step(enc, q, w);
    (a.Go? ==> TagState(a.q)) && (a.Accept? ==> StartTag(a.tok))
  }

  lemma {:induction false} TagPartStays(enc: Encoding, q: State, w: string)
    requires w != "" && TagPart(q)
    ensures StaysInTag(enc, q, w)
  {
    hide Step; hide NameCase; hide NmstrtCase; hide InvalidCase;
    StepBy(enc, q, w);
  }

  lemma {:induction false} OtherTagStays(enc: Encoding, q: State, w: string)
    requires w != "" && TagState(q) && !TagPart(q)
    ensures StaysInTag(enc, q, w)
  {
    hide Step; hide NameCase; hide NmstrtCase; hide InvalidCase;
    StepBy(enc, q, w);
  }

  lemma {:induction false} TagScanStays(enc: Encoding, q: State, s: string, p: nat)
    requires p <= |s| && TagState(q)
    ensures var v := Scan(enc, q, s, p); v.Tok? ==> StartTag(v.tok)
    decreases |s| - p
  {
    hide Step; hide Scan; hide TagState;
    ScanUnfold(enc, q, s, p);
    if p < |s| {
      if TagPart(q) { TagPartStays(enc, q, s[p..]); } else { OtherTagStays(enc, q, s[p..]); }
      var a := Step(enc, q, s[p..]);
      if a.Go? { TagScanStays(enc, a.q, s, p + a.n); }
    }
  }

  /** Where the prolog saw the start of the root, the first content token is a start tag, if it is a token at all. */
  lemma {:induction false} RootTok(enc: Encoding, w: string)
    requires AtRoot(enc, w)
    ensures var v := ContentTok(enc, w); !v.NoBytes? && !v.TrailingCr? && !v.TrailingRsqb? && (v.Tok? ==> StartTag(v.tok))
  {
    hide Step; hide Scan;
    StepBy(enc, LtOpen, w[1..]);
    assert enc.byteType(w[0]) == LT;
    assert w[1..][0] == w[1];
    var a := Step(enc, LtOpen, w[1..]);
    ScanUnfold(enc, LtOpen, w, 1);
    if a.Go? {
      TagScanStays(enc, a.q, w, 1 + a.n);
    }
  }

  // ---- Runs ----

  /** The claim: from `tags`, none of them closed below `base`, the events lead to the open tags the run reports. */
  predicate Nested(base: nat, tags: seq<string>, r: Result)
  {
    r.outcome.Stopped? ==>
      && Track(base, DocState(tags, false), r.events) == Some(DocState(r.outcome.tags, r.outcome.phase.EpilogPhase?))
      && (base > 0 ==> base <= |r.outcome.tags| && !r.outcome.phase.EpilogPhase?)
  }

  /** At the end of an entity its elements are closed; at the end of the document all are. */
  predicate Ends(base: nat, final: bool, r: Result)
  {
    r.outcome.Stopped? && final ==>
      && |r.outcome.tags| == base && r.outcome.rest == ""
      && r.outcome.phase == (if base == 0 then EpilogPhase else ContentPhase)
  }

  predicate Fine(base: nat, tags: seq<string>, final: bool, r: Result) { Nested(base, tags, r) && Ends(base, final, r) }

  /** Where the content may be scanned from: inside an element, or at the root. */
  ghost predicate Ready(env: Env, enc: Encoding, base: nat, tags: seq<string>, w: string)
  {
    base <= |tags| && (tags == [] ==> enc == env.enc && AtRoot(enc, w))
  }

  lemma {:induction false} FineThen(base: nat, tags: seq<string>, e: seq<Event>, tags': seq<string>, final: bool, r: Result)
    requires Track(base, DocState(tags, false), e) == Some(DocState(tags', false)) && Fine(base, tags', final, r)
    ensures Fine(base, tags, final, Then(e, r))
  {
    TrackConcat(base, DocState(tags, false), e, r.events);
  }

  lemma {:induction false} EpilogFine(env: Env, prolog: Prolog, w: string, final: bool)
    ensures var r := Epilog(env, prolog, [], w, final);
            r.outcome.Stopped? ==> r.events == [] && r.outcome.tags == [] && r.outcome.phase.EpilogPhase? && (final ==> r.outcome.rest == "")
    decreases |w|
  {
    hide PrologTok;
    var v := PrologTok(env.enc, w);
    if v.Tok? && (v.tok == PrologS || v.tok == Pi || v.tok == Comment) {
      EpilogFine(env, prolog, w[v.next..], final);
    }
  }

  /** What is fine at the level of its own start is balanced and leaves the open tags as they were. */
  lemma {:induction false} FineBalanced(tags: seq<string>, r: Result)
    requires tags != [] && Fine(|tags|, tags, true, r) && r.outcome.Stopped?
    ensures Balanced(r.events) && r.outcome.tags == tags
  {
    TrackKeepsBase(|tags|, DocState(tags, false), r.events);
    assert r.outcome.tags == r.outcome.tags[..|tags|] == tags[..|tags|] == tags;
    BalancedSomewhere(tags, r.events);
  }

  /** The events of one token lead from `tags` to the tags it reports. */
  ghost predicate Handled(base: nat, tags: seq<string>, tok: Token, h: Result)
  {
    h.outcome.Stopped? ==>
      var tags' := h.outcome.tags;
      base <= |tags'| && Track(base, DocState(tags, false), h.events) == Some(DocState(tags', tags' == [])) && (tags' == [] ==> Closes(tok))
  }

  /** The text of an entity is fine when it is expanded. */
  ghost predicate EntityFine(env: Env, prolog: Prolog, open: set<string>, tags: seq<string>, name: string)
  {
    name in prolog.dtd.entities && prolog.dtd.entities[name].Internal? && name !in open ==>
      Fine(|tags|, tags, true, Content(env, prolog, open + {name}, env.internal, |tags|, tags, prolog.dtd.entities[name].text, true))
  }

  lemma {:induction false} ExpandHandled(env: Env, prolog: Prolog, open: set<string>, base: nat, tags: seq<string>, name: string)
    requires base <= |tags| && tags != [] && EntityFine(env, prolog, open, tags, name)
    ensures Handled(base, tags, EntityRef, Expand(env, prolog, open, tags, name))
  {
    hide Content; hide PredefinedEntityName;
    var p := PredefinedEntityName(name);
    var r := Expand(env, prolog, open, tags, name);
    if p.Some? {
      assert CharBytes([p.value]) == [CharByte(p.value)];
      TrackText(base, DocState(tags, false), [p.value]);
    } else if name in prolog.dtd.entities && prolog.dtd.entities[name].Internal? && name !in open && r.outcome.Stopped? {
      FineBalanced(tags, r);
      TrackLower(base, tags, r.events);
    }
  }

  lemma {:induction false} TrackOpens(base: nat, tags: seq<string>, name: string, atts: seq<(string, string)>, rest: seq<Event>)
    ensures Track(base, DocState(tags, false), [StartElement(name, atts)] + rest) == Track(base, DocState(tags + [name], false), rest)
  {
    assert ([StartElement(name, atts)] + rest)[1..] == rest;
  }

  lemma {:induction false} TrackEnds(base: nat, tags: seq<string>, name: string)
    requires base <= |tags|
    ensures Track(base, DocState(tags + [name], false), [EndElement(name)]) == Some(DocState(tags, tags == []))
  {
    assert (tags + [name])[..|tags|] == tags;
    assert [EndElement(name)][1..] == [];
  }

  lemma {:induction false} TagHandled(env: Env, prolog: Prolog, open: set<string>, enc: Encoding, base: nat, tags: seq<string>, token: string, empty: bool, tok: Token)
    requires base <= |tags| && (empty ==> Closes(tok))
    ensures Handled(base, tags, tok, Tag(env, prolog, open, enc, tags, token, empty))
  {
    hide StoreAtts; hide NameAt; hide Track;
    var name := NameAt(enc, token, 1);
    var r := StoreAtts(env.internal, prolog.dtd, open, enc, token, name);
    if r.Stored? {
      var start := StartElement(name, r.atts);
      if empty {
        TrackOpens(base, tags, name, r.atts, [EndElement(name)]);
        TrackEnds(base, tags, name);
        assert [start, EndElement(name)] == [start] + [EndElement(name)];
      } else {
        TrackOpens(base, tags, name, r.atts, []);
        TrackNothing(base, DocState(tags + [name], false));
        assert [start] == [start] + [];
      }
    }
  }

  lemma {:induction false} TrackNothing(base: nat, st: DocState)
    ensures Track(base, st, []) == Some(st)
  {
  }

  lemma {:induction false} EndTagHandled(base: nat, prolog: Prolog, tags: seq<string>)
    requires base < |tags|
    ensures var name := tags[|tags| - 1]; Handled(base, tags, EndTag, Result([EndElement(name)], GoingOn(prolog, tags[..|tags| - 1])))
  {
    var name := tags[|tags| - 1];
    var tags' := tags[..|tags| - 1];
    assert Track(base, DocState(tags, false), [EndElement(name)]) == Some(DocState(tags', tags' == []));
  }

  lemma {:induction false} TextHandled(base: nat, prolog: Prolog, tags: seq<string>, tok: Token, text: string)
    requires base <= |tags| && tags != []
    ensures Handled(base, tags, tok, Result(CharBytes(text), GoingOn(prolog, tags)))
  {
    TrackText(base, DocState(tags, false), text);
  }

  lemma {:induction false} FailedHandled(base: nat, tags: seq<string>, tok: Token, r: Result)
    requires r.outcome.Failed?
    ensures Handled(base, tags, tok, r)
  {
  }

  predicate TextTok(tok: Token) { !StartTag(tok) && tok != EntityRef && tok != EndTag }

  /** Tokens that report text, or nothing. */
  lemma {:induction false} TextOf(env: Env, prolog: Prolog, open: set<string>, enc: Encoding, base: nat, tags: seq<string>, tok: Token, token: string) returns (text: string)
    requires TextTok(tok)
    ensures var h := Handle(env, prolog, open, enc, base, tags, tok, token); h.outcome.Stopped? ==> h == Result(CharBytes(text), GoingOn(prolog, tags))
  {
    hide CharRefNumber; hide Utf8Encode; hide Tag; hide Expand; hide NameAt;
    assert CharBytes("\n") == [CharByte('\n')] && CharBytes("") == [];
    text := if tok == CharRef then Utf8Encode(CharRefNumber(token)) else if tok == DataNewline then "\n" else if tok == DataChars then token else "";
  }

  lemma {:induction false} TokenHandled(env: Env, prolog: Prolog, open: set<string>, enc: Encoding, base: nat, tags: seq<string>, tok: Token, token: string)
    requires base <= |tags| && (tags == [] ==> StartTag(tok)) && (tok == EntityRef ==> EntityFine(env, prolog, open, tags, Inner(token)))
    ensures Handled(base, tags, tok, Handle(env, prolog, open, enc, base, tags, tok, token))
  {
    hide Expand; hide Tag; hide CharRefNumber; hide Utf8Encode; hide Handled;
    var h := Handle(env, prolog, open, enc, base, tags, tok, token);
    if TextTok(tok) {
      hide Handle;
      var text := TextOf(env, prolog, open, enc, base, tags, tok, token);
      if h.outcome.Stopped? { TextHandled(base, prolog, tags, tok, text); } else { FailedHandled(base, tags, tok, h); }
    } else if StartTag(tok) {
      TagHandled(env, prolog, open, enc, base, tags, token, Closes(tok), tok);
    } else if tok == EntityRef {
      ExpandHandled(env, prolog, open, base, tags, Inner(token));
    } else if h.outcome.Failed? {
      FailedHandled(base, tags, tok, h);
    } else {
      EndTagHandled(base, prolog, tags);
    }
  }

  /** Accepted above a base, accepted above a lower one. */
  lemma {:induction false} TrackLowerAt(base: nat, base': nat, st: DocState, events: seq<Event>)
    requires base' <= base && Track(base, st, events).Some?
    ensures Track(base', st, events) == Track(base, st, events)
    decreases |events|
  {
    if events != [] {
      match events[0]
      case StartElement(name, _) => TrackLowerAt(base, base', DocState(st.tags + [name], false), events[1..]);
      case CharByte(_) => TrackLowerAt(base, base', st, events[1..]);
      case EndElement(name) =>
        var tags := st.tags[..|st.tags| - 1];
        TrackLowerAt(base, base', DocState(tags, tags == []), events[1..]);
    }
  }

  lemma {:induction false} TrackLower(base: nat, tags: seq<string>, events: seq<Event>)
    requires base <= |tags| && tags != [] && Balanced(events)
    ensures Track(base, DocState(tags, false), events) == Some(DocState(tags, false))
  {
    assert Track(|tags|, DocState(tags, false), events) == Some(DocState(tags, false));
    TrackLowerAt(|tags|, base, DocState(tags, false), events);
  }

  lemma {:induction false} FailedFine(base: nat, tags: seq<string>, final: bool, r: Result)
    requires r.outcome.Failed?
    ensures Fine(base, tags, final, r)
  {
  }

  /** Where the content ends, waits or is refused. */
  lemma {:induction false} NoTokenFine(env: Env, prolog: Prolog, open: set<string>, enc: Encoding, base: nat, tags: seq<string>, w: string, final: bool)
    requires base <= |tags| && !ContentTok(enc, w).Tok?
    ensures Fine(base, tags, final, Content(env, prolog, open, enc, base, tags, w, final))
  {
    hide ContentTok;
    if tags != [] {
      TrackText(base, DocState(tags, false), w);
      TrackText(base, DocState(tags, false), "\n");
      assert CharBytes("\n") == [CharByte('\n')];
    }
  }

  /** What comes behind a token that was handled. */
  lemma {:induction false} RestFine(env: Env, prolog: Prolog, open: set<string>, enc: Encoding, base: nat, tags: seq<string>, w: string, final: bool, h: Result)
    requires var v := ContentTok(enc, w);
             && v.Tok? && v.tok != CdataSectOpen && base <= |tags|
             && h == Handle(env, prolog, open, enc, base, tags, v.tok, w[..v.next]) && Handled(base, tags, v.tok, h)
             && (h.outcome.Stopped? && h.outcome.tags != [] ==>
                   Fine(base, h.outcome.tags, final, Content(env, prolog, open, enc, base, h.outcome.tags, w[v.next..], final)))
    ensures Fine(base, tags, final, Content(env, prolog, open, enc, base, tags, w, final))
  {
    hide ContentTok; hide Handle; hide Epilog; hide Cdata;
    if h.outcome.Stopped? {
      var rest := w[ContentTok(enc, w).next..];
      var tags' := h.outcome.tags;
      if tags' == [] {
        EpilogFine(env, prolog, rest, final);
        TrackConcat(base, DocState(tags, false), h.events, Epilog(env, prolog, [], rest, final).events);
      } else {
        FineThen(base, tags, h.events, tags', final, Content(env, prolog, open, enc, base, tags', rest, final));
      }
    }
  }

  lemma {:induction false} ContentFine(env: Env, prolog: Prolog, open: set<string>, enc: Encoding, base: nat, tags: seq<string>, w: string, final: bool)
    requires Ready(env, enc, base, tags, w)
    ensures Fine(base, tags, final, Content(env, prolog, open, enc, base, tags, w, final))
    decreases Unopened(prolog, open), |w|
  {
    hide ContentTok; hide Content; hide Fine; hide AtRoot; hide Handle; hide Handled; hide Unopened;
    if tags == [] { RootTok(enc, w); }
    var v := ContentTok(enc, w);
    if !v.Tok? {
      NoTokenFine(env, prolog, open, enc, base, tags, w, final);
    } else if v.tok == CdataSectOpen {
      CdataFine(env, prolog, open, enc, base, tags, w[v.next..], final);
      CdataOpenFine(env, prolog, open, enc, base, tags, w, final);
    } else {
      var token := w[..v.next];
      var name := Inner(token);
      var entities := prolog.dtd.entities;
      if v.tok == EntityRef && name in entities && entities[name].Internal? && name !in open {
        OneOpened(prolog, open, name);
        ContentFine(env, prolog, open + {name}, env.internal, |tags|, tags, entities[name].text, true);
      }
      TokenHandled(env, prolog, open, enc, base, tags, v.tok, token);
      var h := Handle(env, prolog, open, enc, base, tags, v.tok, token);
      if h.outcome.Stopped? && h.outcome.tags != [] {
        assert base <= |h.outcome.tags| by { HandledAbove(base, tags, v.tok, h); }
        ContentFine(env, prolog, open, enc, base, h.outcome.tags, w[v.next..], final);
      }
      RestFine(env, prolog, open, enc, base, tags, w, final, h);
    }
  }

  /** Any text that is parsed as that of an entity, in any element, is balanced by itself or an error. */
  lemma {:induction false} TextBalanced(env: Env, prolog: Prolog, open: set<string>, tags: seq<string>, name: string, text: string)
    requires tags != []
    ensures var r := Content(env, prolog, open + {name}, env.internal, |tags|, tags, text, true);
            r.outcome.Stopped? ==> Balanced(r.events) && r.outcome.tags == tags
  {
    hide Content; hide Fine; hide Balanced;
    ContentFine(env, prolog, open + {name}, env.internal, |tags|, tags, text, true);
    var r := Content(env, prolog, open + {name}, env.internal, |tags|, tags, text, true);
    if r.outcome.Stopped? { FineBalanced(tags, r); }
  }

  /** A reference to a general entity, wherever it is expanded: what it amounts to is balanced by itself and leaves the
      open tags as they were, or it is an error. */
  lemma {:induction false} ExpansionBalanced(env: Env, prolog: Prolog, open: set<string>, tags: seq<string>, name: string)
    requires tags != []
    ensures var r := Expand(env, prolog, open, tags, name);
            r.outcome.Stopped? ==> Balanced(r.events) && r.outcome.tags == tags
  {
    hide Content; hide PredefinedEntityName;
    var r := Expand(env, prolog, open, tags, name);
    if PredefinedEntityName(name).Some? {
      assert CharBytes([PredefinedEntityName(name).value]) == r.events;
      TrackText(|tags|, DocState(tags, false), [PredefinedEntityName(name).value]);
      BalancedSomewhere(tags, r.events);
    } else if name in prolog.dtd.entities && prolog.dtd.entities[name].Internal? && name !in open {
      TextBalanced(env, prolog, open, tags, name, prolog.dtd.entities[name].text);
    }
  }

  lemma {:induction false} HandledAbove(base: nat, tags: seq<string>, tok: Token, h: Result)
    requires Handled(base, tags, tok, h) && h.outcome.Stopped?
    ensures base <= |h.outcome.tags| && (h.outcome.tags == [] ==> Closes(tok))
  {
  }

  lemma {:induction false} CdataOpenFine(env: Env, prolog: Prolog, open: set<string>, enc: Encoding, base: nat, tags: seq<string>, w: string, final: bool)
    requires var v := ContentTok(enc, w);
             && v.Tok? && v.tok == CdataSectOpen
             && Fine(base, tags, final, Cdata(env, prolog, open, enc, base, tags, w[v.next..], final))
    ensures Fine(base, tags, final, Content(env, prolog, open, enc, base, tags, w, final))
  {
    hide ContentTok; hide Fine; hide Cdata; hide Handle;
  }

  lemma {:induction false} CdataFine(env: Env, prolog: Prolog, open: set<string>, enc: Encoding, base: nat, tags: seq<string>, w: string, final: bool)
    requires base <= |tags| && tags != []
    ensures Fine(base, tags, final, Cdata(env, prolog, open, enc, base, tags, w, final))
    decreases Unopened(prolog, open), |w|
  {
    hide CdataTok; hide Content; hide AtRoot;
    var v := CdataTok(enc, w);
    if v.Tok? {
      ContentFine(env, prolog, open, enc, base, tags, w[v.next..], final);
      CdataFine(env, prolog, open, enc, base, tags, w[v.next..], final);
      var rest := Cdata(env, prolog, open, enc, base, tags, w[v.next..], final);
      assert CharBytes("\n") == [CharByte('\n')];
      var text := if v.tok == DataNewline then "\n" else w[..v.next];
      TrackText(base, DocState(tags, false), text);
      FineThen(base, tags, CharBytes(text), tags, final, rest);
    }
  }

  // ---- Documents ----

  lemma {:induction false} PrologFine(env: Env, prolog: Prolog, w: string, final: bool)
    requires RoleLaws(env)
    ensures Fine(0, [], final, ProcessProlog(env, prolog, w, final))
    decreases |w|
  {
    hide PrologTok; hide Content; hide Fine;
    var v := PrologTok(env.enc, w);
    if v.Tok? {
      var a := env.role(prolog, v.tok, w[..v.next]);
      if a.StartInstance? {
        assert v.next == 0 by { InstanceAtStart(env.enc, w); }
        ContentFine(env, a.prolog, {}, env.enc, 0, [], w, final);
      } else if a.Continue? && v.next > 0 {
        PrologFine(env, a.prolog, w[v.next..], final);
      } else {
        FailedFine(0, [], final, ProcessProlog(env, prolog, w, final));
      }
    } else {
      PrologStopFine(env, prolog, w, final);
    }
  }

  predicate NoInstance(q: State)
  {
    (q.PrologName? ==> q.nameTok != InstanceStart) && (q.PiTargetQuest? || q.PiBody? || q.PiBodyQuest? ==> q.piTok != InstanceStart)
  }

  lemma {:induction false} NoInstanceOther(enc: Encoding, q: State, w: string)
    requires w != "" && NoInstance(q) && OtherPart(q)
    ensures var a := StepOther(enc, q, w); (a.Go? ==> NoInstance(a.q)) && (a.Accept? ==> a.tok != InstanceStart)
  {
    hide NameCase; hide NmstrtCase; hide InvalidCase;
  }

  lemma {:induction false} NoInstanceProlog(enc: Encoding, q: State, w: string)
    requires w != "" && NoInstance(q) && PrologPart(q)
    ensures var a := StepProlog(enc, q, w); (a.Go? ==> NoInstance(a.q)) && (a.Accept? ==> a.tok != InstanceStart)
  {
    hide NameCase; hide NmstrtCase; hide InvalidCase;
  }

  lemma {:induction false} NoInstanceTag(enc: Encoding, q: State, w: string)
    requires w != "" && (RefPart(q) || AttPart(q) || NamePart(q))
    ensures var a := Step(enc, q, w); (a.Go? ==> NoInstance(a.q)) && (a.Accept? ==> a.tok != InstanceStart)
  {
    hide Step; hide StepRef; hide StepAtt; hide StepTag;
    StepBy(enc, q, w);
    if RefPart(q) { NoInstanceRef(enc, q, w); } else if AttPart(q) { NoInstanceAtt(enc, q, w); } else { NoInstanceName(enc, q, w); }
  }

  lemma {:induction false} NoInstanceRef(enc: Encoding, q: State, w: string)
    requires w != "" && RefPart(q)
    ensures var a := StepRef(enc, q, w); (a.Go? ==> NoInstance(a.q)) && (a.Accept? ==> a.tok != InstanceStart)
  {
    hide NameCase; hide NmstrtCase;
  }

  lemma {:induction false} NoInstanceAtt(enc: Encoding, q: State, w: string)
    requires w != "" && AttPart(q)
    ensures var a := StepAtt(enc, q, w); (a.Go? ==> NoInstance(a.q)) && (a.Accept? ==> a.tok != InstanceStart)
  {
    hide NameCase; hide NmstrtCase; hide InvalidCase;
  }

  lemma {:induction false} NoInstanceName(enc: Encoding, q: State, w: string)
    requires w != "" && NamePart(q)
    ensures var a := StepTag(enc, q, w); (a.Go? ==> NoInstance(a.q)) && (a.Accept? ==> a.tok != InstanceStart)
  {
    hide NameCase; hide NmstrtCase;
  }

  lemma {:induction false} NoInstanceStep(enc: Encoding, q: State, w: string)
    requires w != "" && NoInstance(q)
    ensures var a := Step(enc, q, w); (a.Go? ==> NoInstance(a.q)) && (a.Accept? ==> a.tok != InstanceStart)
  {
    hide Step; hide StepOther; hide StepProlog; hide StepTag; hide StepRef; hide StepAtt; hide NoInstance; hide RefPart; hide NamePart; hide AttPart; hide PrologPart;
    StepBy(enc, q, w);
    if OtherPart(q) { NoInstanceOther(enc, q, w); }
    else if PrologPart(q) { NoInstanceProlog(enc, q, w); }
    else { NoInstanceTag(enc, q, w); }
  }

  lemma {:induction false} NoInstanceScan(enc: Encoding, q: State, s: string, p: nat)
    requires p <= |s| && NoInstance(q)
    ensures var v := Scan(enc, q, s, p); v.Tok? ==> v.tok != InstanceStart
    decreases |s| - p
  {
    hide Step; hide Scan; hide NoInstance;
    ScanUnfold(enc, q, s, p);
    if p < |s| {
      NoInstanceStep(enc, q, s[p..]);
      var a := Step(enc, q, s[p..]);
      if a.Go? { NoInstanceScan(enc, a.q, s, p + a.n); }
    }
  }

  lemma {:induction false} InstanceAtStart(enc: Encoding, w: string)
    requires PrologTok(enc, w).Tok? && PrologTok(enc, w).tok == InstanceStart
    ensures PrologTok(enc, w).next == 0
  {
    hide Scan;
    forall q: State, p: nat | p <= |w| && NoInstance(q) ensures !(Scan(enc, q, w, p).Tok? && Scan(enc, q, w, p).tok == InstanceStart) {
      NoInstanceScan(enc, q, w, p);
    }
  }

  lemma {:induction false} PrologStopFine(env: Env, prolog: Prolog, w: string, final: bool)
    requires !PrologTok(env.enc, w).Tok?
    ensures Fine(0, [], final, ProcessProlog(env, prolog, w, final))
  {
    hide PrologTok;
  }

  // ---- Between calls ----

  /** What holds of the processor, the open tags and the bytes not consumed between two calls. */
  ghost predicate Between(env: Env, phase: Phase, tags: seq<string>, rest: string)
  {
    match phase
    case PrologPhase => tags == []
    case ContentPhase => tags == [] ==> AtRoot(env.enc, rest)
    case CdataPhase => tags != []
    case EpilogPhase => tags == []
  }

  lemma {:induction false} BetweenMore(env: Env, phase: Phase, tags: seq<string>, rest: string, more: string)
    requires Between(env, phase, tags, rest)
    ensures Between(env, phase, tags, rest + more)
  {
    hide PrologTok;
    if phase == ContentPhase && tags == [] { PrologTokGrows(env.enc, rest, more); }
  }

  /** Once an element is open, no tag is open exactly when the root has been closed. */
  lemma {:induction false} TrackCloses(base: nat, st: DocState, events: seq<Event>)
    requires Track(base, st, events).Some? && st.closed == (st.tags == [])
    ensures var st' := Track(base, st, events).value; st'.closed == (st'.tags == [])
    decreases |events|
  {
    if events != [] {
      match events[0]
      case StartElement(name, _) => TrackCloses(base, DocState(st.tags + [name], false), events[1..]);
      case CharByte(_) => TrackCloses(base, st, events[1..]);
      case EndElement(name) =>
        var tags := st.tags[..|st.tags| - 1];
        TrackCloses(base, DocState(tags, tags == []), events[1..]);
    }
  }

  ghost predicate StopsBetween(env: Env, r: Result)
  {
    r.outcome.Stopped? ==> Between(env, r.outcome.phase, r.outcome.tags, r.outcome.rest)
  }

  lemma {:induction false} InsideStops(env: Env, tags: seq<string>, r: Result)
    requires tags != [] && Nested(0, tags, r) && (r.outcome.Stopped? ==> !r.outcome.phase.PrologPhase?)
    ensures StopsBetween(env, r)
  {
    if r.outcome.Stopped? { TrackCloses(0, DocState(tags, false), r.events); }
  }

  lemma {:induction false} ContentPhases(env: Env, prolog: Prolog, open: set<string>, enc: Encoding, base: nat, tags: seq<string>, w: string, final: bool)
    ensures var r := Content(env, prolog, open, enc, base, tags, w, final); r.outcome.Stopped? ==> !r.outcome.phase.PrologPhase?
    ensures var r := Cdata(env, prolog, open, enc, base, tags, w, final); r.outcome.Stopped? ==> !r.outcome.phase.PrologPhase?
    decreases |w|
  {
    hide Content; hide Cdata; hide ContentTok; hide CdataTok; hide Handle; hide Epilog;
    var v := ContentTok(enc, w);
    if v.Tok? {
      var h := Handle(env, prolog, open, enc, base, tags, v.tok, w[..v.next]);
      var tags' := if v.tok != CdataSectOpen && h.outcome.Stopped? then h.outcome.tags else tags;
      ContentPhases(env, prolog, open, enc, base, tags', w[v.next..], final);
      EpilogPhases(env, prolog, tags', w[v.next..], final);
      ContentOfToken(env, prolog, open, enc, base, tags, w, final);
    } else {
      HaltPhases(env, prolog, open, enc, base, tags, w, final);
    }
    var c := CdataTok(enc, w);
    if c.Tok? { ContentPhases(env, prolog, open, enc, base, tags, w[c.next..], final); }
    CdataUnfold(env, prolog, open, enc, base, tags, w, final);
  }

  lemma {:induction false} HaltPhases(env: Env, prolog: Prolog, open: set<string>, enc: Encoding, base: nat, tags: seq<string>, w: string, final: bool)
    requires !ContentTok(enc, w).Tok?
    ensures var r := Content(env, prolog, open, enc, base, tags, w, final); r.outcome.Stopped? ==> r.outcome.phase == ContentPhase
  {
    hide ContentTok; hide Cdata; hide Handle; hide Epilog;
  }

  lemma {:induction false} CdataUnfold(env: Env, prolog: Prolog, open: set<string>, enc: Encoding, base: nat, tags: seq<string>, w: string, final: bool)
    ensures var v := CdataTok(enc, w); var r := Cdata(env, prolog, open, enc, base, tags, w, final);
            if v.Tok? then
              r.outcome == (if v.tok == CdataSectClose then Content(env, prolog, open, enc, base, tags, w[v.next..], final)
                            else Cdata(env, prolog, open, enc, base, tags, w[v.next..], final)).outcome
            else r.outcome.Stopped? ==> r.outcome.phase == CdataPhase
  {
    hide Content; hide CdataTok;
  }

  lemma {:induction false} EpilogPhases(env: Env, prolog: Prolog, tags: seq<string>, w: string, final: bool)
    ensures var r := Epilog(env, prolog, tags, w, final); r.outcome.Stopped? ==> r.outcome.phase.EpilogPhase? && r.outcome.tags == tags
    decreases |w|
  {
    hide PrologTok;
    var v := PrologTok(env.enc, w);
    if v.Tok? && (v.tok == PrologS || v.tok == Pi || v.tok == Comment) {
      EpilogPhases(env, prolog, tags, w[v.next..], final);
    }
  }

  lemma {:induction false} InsideContentStops(env: Env, prolog: Prolog, tags: seq<string>, w: string, final: bool)
    requires tags != []
    ensures StopsBetween(env, Content(env, prolog, {}, env.enc, 0, tags, w, final))
  {
    hide Content; hide AtRoot; hide Track;
    ContentFine(env, prolog, {}, env.enc, 0, tags, w, final);
    ContentPhases(env, prolog, {}, env.enc, 0, tags, w, final);
    InsideStops(env, tags, Content(env, prolog, {}, env.enc, 0, tags, w, final));
  }

  lemma {:induction false} ContentStops(env: Env, prolog: Prolog, tags: seq<string>, w: string, final: bool)
    requires tags == [] ==> AtRoot(env.enc, w)
    ensures StopsBetween(env, Content(env, prolog, {}, env.enc, 0, tags, w, final))
  {
    hide ContentTok; hide Content; hide AtRoot; hide Track; hide Handle;
    if tags != [] {
      InsideContentStops(env, prolog, tags, w, final);
    } else {
      RootTok(env.enc, w);
      RootStops(env, prolog, w, final);
    }
  }

  lemma {:induction false} RootStops(env: Env, prolog: Prolog, w: string, final: bool)
    requires AtRoot(env.enc, w)
    requires var v := ContentTok(env.enc, w); !v.NoBytes? && !v.TrailingCr? && !v.TrailingRsqb? && (v.Tok? ==> StartTag(v.tok))
    ensures StopsBetween(env, Content(env, prolog, {}, env.enc, 0, [], w, final))
  {
    hide ContentTok; hide AtRoot; hide Track; hide Handle; hide Epilog; hide Handled; hide Cdata;
    var v := ContentTok(env.enc, w);
    if v.Tok? {
      var h := Handle(env, prolog, {}, env.enc, 0, [], v.tok, w[..v.next]);
      TokenHandled(env, prolog, {}, env.enc, 0, [], v.tok, w[..v.next]);
      if h.outcome.Stopped? {
        HandledAbove(0, [], v.tok, h);
        if h.outcome.tags == [] { EpilogPhases(env, prolog, [], w[v.next..], final); } else { InsideContentStops(env, prolog, h.outcome.tags, w[v.next..], final); }
      }
    }
  }

  lemma {:induction false} PrologStops(env: Env, prolog: Prolog, w: string, final: bool)
    requires RoleLaws(env)
    ensures StopsBetween(env, ProcessProlog(env, prolog, w, final))
    decreases |w|
  {
    hide PrologTok; hide Content;
    var v := PrologTok(env.enc, w);
    if v.Tok? {
      var a := env.role(prolog, v.tok, w[..v.next]);
      if a.StartInstance? {
        InstanceAtStart(env.enc, w);
        ContentStops(env, a.prolog, [], w, final);
      } else if a.Continue? && v.next > 0 {
        PrologStops(env, a.prolog, w[v.next..], final);
      }
    }
  }

  /** A call leaves the parser in order. */
  lemma {:induction false} ProcessStops(env: Env, phase: Phase, prolog: Prolog, tags: seq<string>, w: string, final: bool)
    requires RoleLaws(env) && Between(env, phase, tags, w)
    ensures StopsBetween(env, Process(env, phase, prolog, tags, w, final))
  {
    hide RoleLaws; hide ProcessProlog; hide Content; hide Cdata; hide Epilog; hide Track; hide AtRoot;
    match phase
    case PrologPhase => PrologStops(env, prolog, w, final);
    case ContentPhase => ContentStops(env, prolog, tags, w, final);
    case CdataPhase =>
      CdataFine(env, prolog, {}, env.enc, 0, tags, w, final);
      ContentPhases(env, prolog, {}, env.enc, 0, tags, w, final);
      InsideStops(env, tags, Cdata(env, prolog, {}, env.enc, 0, tags, w, final));
    case EpilogPhase => EpilogPhases(env, prolog, tags, w, final);
  }

  /** However a document is cut: when the parse succeeds, its events are one properly nested, name-matched root with all text inside. */
  lemma {:induction false} DocumentNested(env: Env, prolog: Prolog, chunks: seq<string>, last: string)
    requires RoleLaws(env)
    ensures var r := Parse(env, PrologPhase, prolog, [], "", chunks, last);
            r.outcome.Stopped? ==>
              && r.outcome.phase.EpilogPhase? && r.outcome.rest == ""
              && Track(0, DocState([], false), r.events) == Some(DocState([], true))
  {
    hide Parse; hide ProcessProlog; hide RoleLaws;
    ParseExtends(env, PrologPhase, prolog, [], "", chunks, last);
    var doc := "" + (Concat(chunks) + last);
    PrologFine(env, prolog, doc, true);
  }
}
