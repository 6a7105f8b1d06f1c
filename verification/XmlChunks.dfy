/**
 Chunk independence: however a document is cut into calls of XML_Parse, the
 parse fails with the same error or succeeds with the same elements and text
 (libjabber/xmlparse.c:757-863, 1046-1477, 1743-1832).
 */
module XmlChunks {
  import opened XmlScan
  import opened XmlTok
  import opened XmlAtts
  import opened XmlValue
  import opened XmlContent

  /** The same verdict; after a failure the text reported before it may differ in length. */
  predicate Same(a: Result, b: Result)
  {
    a.outcome == b.outcome && (!a.outcome.Failed? ==> a.events == b.events)
  }

  /** Where doContent is called: for the document, or for the text of an entity, with the entities open there. */
  datatype Place = Place(open: set<string>, enc: Encoding, base: nat)

  function Outermost(env: Env): Place { Place({}, env.enc, 0) }

  /** The processor of a phase, at any place. */
  function ProcessAt(env: Env, at: Place, phase: Phase, prolog: Prolog, tags: seq<string>, w: string, final: bool): Result
  {
    match phase
    case PrologPhase => ProcessProlog(env, prolog, w, final)
    case ContentPhase => Content(env, prolog, at.open, at.enc, at.base, tags, w, final)
    case CdataPhase => Cdata(env, prolog, at.open, at.enc, at.base, tags, w, final)
    case EpilogPhase => Epilog(env, prolog, tags, w, final)
  }

  /** Goes on with `t` where the call that returned `r` stopped. */
  function ResumeAt(env: Env, at: Place, r: Result, t: string, final: bool): Result
  {
    match r.outcome
    case Failed(_) => r
    case Stopped(phase, prolog, tags, rest) => Then(r.events, ProcessAt(env, at, phase, prolog, tags, rest + t, final))
  }

  function Resume(env: Env, r: Result, t: string, final: bool): Result { ResumeAt(env, Outermost(env), r, t, final) }

  lemma {:induction false} ThenThen(a: seq<Event>, b: seq<Event>, r: Result)
    ensures Then(a, Then(b, r)) == Then(a + b, r)
  {
    assert a + (b + r.events) == a + b + r.events;
  }

  lemma {:induction false} ThenResume(env: Env, at: Place, e: seq<Event>, r: Result, whole: Result, t: string, f: bool)
    requires Same(ResumeAt(env, at, r, t, f), whole)
    ensures Same(ResumeAt(env, at, Then(e, r), t, f), Then(e, whole))
  {
    match r.outcome
    case Failed(_) =>
    case Stopped(phase, prolog, tags, rest) => ThenThen(e, r.events, ProcessAt(env, at, phase, prolog, tags, rest + t, f));
  }

  lemma {:induction false} Cut(w: string, t: string, n: nat)
    requires n <= |w|
    ensures (w + t)[..n] == w[..n] && (w + t)[n..] == w[n..] + t
  {
  }

  lemma {:induction false} NothingThen(r: Result)
    ensures Then([], r) == r
  {
    assert [] + r.events == r.events;
  }

  // ---- Epilog ----

  lemma {:induction false} EpilogExtend(env: Env, at: Place, prolog: Prolog, tags: seq<string>, w: string, t: string, f: bool)
    ensures Same(ResumeAt(env, at, Epilog(env, prolog, tags, w, false), t, f), Epilog(env, prolog, tags, w + t, f))
    decreases |w|
  {
    hide PrologTok;
    var v := PrologTok(env.enc, w);
    if v.Final() {
      PrologTokGrows(env.enc, w, t);
      if v.Tok? && (v.tok == PrologS || v.tok == Pi || v.tok == Comment) {
        Cut(w, t, v.next);
        EpilogExtend(env, at, prolog, tags, w[v.next..], t, f);
        var v' := PrologTok(env.enc, w + t);
        if v' != v {
          assert (w + t)[v'.next..] == (w[v.next..] + t)[v'.next - v.next..];
        }
      }
    } else {
      EpilogWaitExtend(env, at, prolog, tags, w, t, f);
    }
  }

  lemma {:induction false} EpilogWaitExtend(env: Env, at: Place, prolog: Prolog, tags: seq<string>, w: string, t: string, f: bool)
    requires !PrologTok(env.enc, w).Final()
    ensures Same(ResumeAt(env, at, Epilog(env, prolog, tags, w, false), t, f), Epilog(env, prolog, tags, w + t, f))
  {
    hide PrologTok;
    assert "" + t == t && (t == "" ==> w + t == w) && (w == "" ==> w + t == t);
    NothingThen(Epilog(env, prolog, tags, t, f));
    NothingThen(Epilog(env, prolog, tags, w + t, f));
    if PrologTok(env.enc, w).TrailingCr? && t != "" {
      TrailingCrEpilog(env, prolog, tags, w, t, f);
    }
    EpilogAtEnd(env, prolog, tags, f);
  }

  lemma {:induction false} EpilogAtEnd(env: Env, prolog: Prolog, tags: seq<string>, f: bool)
    ensures Epilog(env, prolog, tags, "", f) == Result([], Stopped(EpilogPhase, prolog, tags, ""))
  {
  }

  /** The CR the epilog consumed at the end of a chunk makes no difference to what follows. */
  lemma {:induction false} TrailingCrEpilog(env: Env, prolog: Prolog, tags: seq<string>, w: string, t: string, f: bool)
    requires PrologTok(env.enc, w).TrailingCr? && t != ""
    ensures Epilog(env, prolog, tags, w + t, f) == Epilog(env, prolog, tags, t, f)
  {
    var u := w + t;
    assert u[0] == w[0] && u[1..] == t;
    var k := SpaceRun(env.enc, u, 1);
    assert PrologTok(env.enc, u) == Tok(PrologS, k);
    if k > 1 {
      SpaceRunResume(env.enc, u, 1);
      assert t[k - 1..] == u[k..];
    }
  }

  // ---- Content ----

  /** doContent at any place. */
  function In(env: Env, at: Place, prolog: Prolog, tags: seq<string>, w: string, f: bool): Result
  {
    Content(env, prolog, at.open, at.enc, at.base, tags, w, f)
  }

  /** doCdataSection at any place. */
  function InSection(env: Env, at: Place, prolog: Prolog, tags: seq<string>, w: string, f: bool): Result
  {
    Cdata(env, prolog, at.open, at.enc, at.base, tags, w, f)
  }

  /** The claim for the content, at the top level or in the text of an entity. */
  ghost predicate Extends(env: Env, at: Place, prolog: Prolog, tags: seq<string>, w: string, t: string, f: bool)
  {
    Same(ResumeAt(env, at, In(env, at, prolog, tags, w, false), t, f), In(env, at, prolog, tags, w + t, f))
  }

  /** The claim for the rest of the input after a token. */
  ghost predicate RestExtends(env: Env, at: Place, prolog: Prolog, w: string, t: string, f: bool)
  {
    forall tags :: Extends(env, at, prolog, tags, w, t, f)
  }

  ghost predicate CdataExtends(env: Env, at: Place, prolog: Prolog, tags: seq<string>, w: string, t: string, f: bool)
  {
    Same(ResumeAt(env, at, InSection(env, at, prolog, tags, w, false), t, f), InSection(env, at, prolog, tags, w + t, f))
  }

  lemma {:induction false} FailureStays(env: Env, at: Place, r: Result, t: string, f: bool)
    requires r.outcome.Failed?
    ensures ResumeAt(env, at, r, t, f) == r
  {
  }

  /** A token that is the same on the grown input: it is handled alike, and the rest goes on. */
  lemma {:induction false} TokenExtend(env: Env, at: Place, prolog: Prolog, tags: seq<string>, w: string, t: string, f: bool)
    requires var v := ContentTok(at.enc, w);
             && v.Tok? && ContentTok(at.enc, w + t) == v && RestExtends(env, at, prolog, w[v.next..], t, f)
             && CdataExtends(env, at, prolog, tags, w[v.next..], t, f)
    ensures Extends(env, at, prolog, tags, w, t, f)
  {
    hide ContentTok; hide ProcessAt; hide Handle; hide Cdata; hide Epilog; hide ResumeAt; hide Then;
    var v := ContentTok(at.enc, w);
    Cut(w, t, v.next);
    if v.tok != CdataSectOpen {
      var h := Handle(env, prolog, at.open, at.enc, at.base, tags, v.tok, w[..v.next]);
      if h.outcome.Failed? {
        FailureStays(env, at, h, t, f);
      } else {
        RestExtend(env, at, prolog, h.outcome.tags, h.events, w[v.next..], Closes(v.tok), t, f);
      }
    }
  }

  /** Behind a token comes content or, when it closed the root, the epilog. */
  lemma {:induction false} RestExtend(env: Env, at: Place, prolog: Prolog, tags: seq<string>, e: seq<Event>, w: string, closes: bool, t: string, f: bool)
    requires RestExtends(env, at, prolog, w, t, f)
    ensures tags == [] && closes ==> Same(ResumeAt(env, at, Then(e, Epilog(env, prolog, tags, w, false)), t, f), Then(e, Epilog(env, prolog, tags, w + t, f)))
    ensures !(tags == [] && closes) ==> Same(ResumeAt(env, at, Then(e, In(env, at, prolog, tags, w, false)), t, f), Then(e, In(env, at, prolog, tags, w + t, f)))
  {
    hide Content; hide ProcessAt; hide Epilog;
    EpilogExtend(env, at, prolog, tags, w, t, f);
    ThenResume(env, at, e, Epilog(env, prolog, tags, w, false), Epilog(env, prolog, tags, w + t, f), t, f);
    assert Extends(env, at, prolog, tags, w, t, f);
    ThenResume(env, at, e, In(env, at, prolog, tags, w, false), In(env, at, prolog, tags, w + t, f), t, f);
  }

  lemma {:induction false} DataOf(env: Env, at: Place, prolog: Prolog, tags: seq<string>, w: string, f: bool)
    requires ContentTok(at.enc, w).Tok? && ContentTok(at.enc, w).tok == DataChars
    ensures var n := ContentTok(at.enc, w).next;
            In(env, at, prolog, tags, w, f) == Then(CharBytes(w[..n]), In(env, at, prolog, tags, w[n..], f))
  {
    hide ContentTok; hide Cdata; hide Epilog;
    var n := ContentTok(at.enc, w).next;
    assert Handle(env, prolog, at.open, at.enc, at.base, tags, DataChars, w[..n]) == Result(CharBytes(w[..n]), GoingOn(prolog, tags));
  }

  lemma {:induction false} InvalidOf(env: Env, at: Place, prolog: Prolog, tags: seq<string>, w: string, f: bool)
    requires ContentTok(at.enc, w).Invalid?
    ensures In(env, at, prolog, tags, w, f) == Result([], Failed(InvalidToken))
  {
    hide ContentTok; hide Cdata; hide Epilog; hide Handle;
  }

  /** A run of character data that goes on, or turns out to hold "]]>", on the grown input. */
  lemma {:induction false} DataExtend(env: Env, at: Place, prolog: Prolog, tags: seq<string>, w: string, t: string, f: bool)
    requires var v := ContentTok(at.enc, w); var v' := ContentTok(at.enc, w + t);
             && v.Tok? && v.tok == DataChars && v' == Shift(v.next, ContentTok(at.enc, (w + t)[v.next..]))
             && (v'.Invalid? || (v'.Tok? && v'.tok == DataChars && v'.next > v.next))
             && RestExtends(env, at, prolog, w[v.next..], t, f)
    ensures Extends(env, at, prolog, tags, w, t, f)
  {
    hide ContentTok; hide In; hide ResumeAt;
    var v, v' := ContentTok(at.enc, w), ContentTok(at.enc, w + t);
    var u, a := (w + t)[v.next..], CharBytes(w[..v.next]);
    Cut(w, t, v.next);
    assert Extends(env, at, prolog, tags, w[v.next..], t, f);
    DataOf(env, at, prolog, tags, w, false);
    ThenResume(env, at, a, In(env, at, prolog, tags, w[v.next..], false), In(env, at, prolog, tags, u, f), t, f);
    if v'.Tok? {
      var k := v'.next - v.next;
      var b := CharBytes(u[..k]);
      assert u[k..] == (w + t)[v'.next..];
      assert a + b == CharBytes((w + t)[..v'.next]);
      DataOf(env, at, prolog, tags, w + t, f);
      DataOf(env, at, prolog, tags, u, f);
      ThenThen(a, b, In(env, at, prolog, tags, u[k..], f));
    } else {
      InvalidOf(env, at, prolog, tags, w + t, f);
      InvalidOf(env, at, prolog, tags, u, f);
    }
  }

  /** Where the tokenizer waits for more, the content is handed back as it is. */
  lemma {:induction false} WaitExtend(env: Env, at: Place, prolog: Prolog, tags: seq<string>, w: string, t: string, f: bool)
    requires !ContentTok(at.enc, w).Final()
    ensures Extends(env, at, prolog, tags, w, t, f)
  {
    hide ContentTok;
    var r := In(env, at, prolog, tags, w, false);
    assert r == Result([], Stopped(ContentPhase, prolog, tags, w));
    NothingThen(In(env, at, prolog, tags, w + t, f));
  }

  lemma {:induction false} ContentExtend(env: Env, at: Place, prolog: Prolog, tags: seq<string>, w: string, t: string, f: bool)
    ensures Extends(env, at, prolog, tags, w, t, f)
    decreases |w|
  {
    hide ContentTok; hide Content; hide Cdata; hide Extends; hide CdataExtends;
    var v := ContentTok(at.enc, w);
    if v.Tok? {
      forall tags' ensures Extends(env, at, prolog, tags', w[v.next..], t, f) {
        ContentExtend(env, at, prolog, tags', w[v.next..], t, f);
      }
      CdataExtend(env, at, prolog, tags, w[v.next..], t, f);
      ContentTokGrows(at.enc, w, t);
      if ContentTok(at.enc, w + t) == v {
        TokenExtend(env, at, prolog, tags, w, t, f);
      } else {
        DataExtend(env, at, prolog, tags, w, t, f);
      }
    } else if v.Invalid? {
      ContentTokGrows(at.enc, w, t);
      InvalidExtend(env, at, prolog, tags, w, t, f);
    } else {
      WaitExtend(env, at, prolog, tags, w, t, f);
    }
  }

  lemma {:induction false} InvalidExtend(env: Env, at: Place, prolog: Prolog, tags: seq<string>, w: string, t: string, f: bool)
    requires ContentTok(at.enc, w).Invalid? && ContentTok(at.enc, w + t).Invalid?
    ensures Extends(env, at, prolog, tags, w, t, f)
  {
    hide ContentTok;
  }

  lemma {:induction false} CdataTokenExtend(env: Env, at: Place, prolog: Prolog, tags: seq<string>, w: string, t: string, f: bool)
    requires var v := CdataTok(at.enc, w); var v' := CdataTok(at.enc, w + t);
             && v.Tok?
             && (v' == v || (v.tok == DataChars && v'.Tok? && v'.tok == DataChars && v'.next > v.next
                             && v' == Shift(v.next, CdataTok(at.enc, (w + t)[v.next..]))))
             && Extends(env, at, prolog, tags, w[v.next..], t, f) && CdataExtends(env, at, prolog, tags, w[v.next..], t, f)
    ensures CdataExtends(env, at, prolog, tags, w, t, f)
  {
    hide CdataTok; hide ProcessAt; hide Content; hide ResumeAt;
    var v, v' := CdataTok(at.enc, w), CdataTok(at.enc, w + t);
    Cut(w, t, v.next);
    if v.tok != CdataSectClose {
      var e := if v.tok == DataNewline then [CharByte('\n')] else CharBytes(w[..v.next]);
      var u := (w + t)[v.next..];
      ThenResume(env, at, e, InSection(env, at, prolog, tags, w[v.next..], false), InSection(env, at, prolog, tags, u, f), t, f);
      if v' != v {
        var k := v'.next - v.next;
        assert e + CharBytes(u[..k]) == CharBytes((w + t)[..v'.next]);
        assert u[k..] == (w + t)[v'.next..];
        ThenThen(e, CharBytes(u[..k]), InSection(env, at, prolog, tags, u[k..], f));
      }
    }
  }

  lemma {:induction false} CdataWaitExtend(env: Env, at: Place, prolog: Prolog, tags: seq<string>, w: string, t: string, f: bool)
    requires var v := CdataTok(at.enc, w); !v.Tok? && (v.Invalid? ==> CdataTok(at.enc, w + t).Invalid?)
    ensures CdataExtends(env, at, prolog, tags, w, t, f)
  {
    hide CdataTok;
    NothingThen(InSection(env, at, prolog, tags, w + t, f));
  }

  lemma {:induction false} CdataExtend(env: Env, at: Place, prolog: Prolog, tags: seq<string>, w: string, t: string, f: bool)
    ensures CdataExtends(env, at, prolog, tags, w, t, f)
    decreases |w|
  {
    hide CdataTok; hide Content; hide Cdata; hide Extends; hide CdataExtends;
    var v := CdataTok(at.enc, w);
    if v.Final() { CdataTokGrows(at.enc, w, t); }
    if v.Tok? {
      ContentExtend(env, at, prolog, tags, w[v.next..], t, f);
      CdataExtend(env, at, prolog, tags, w[v.next..], t, f);
      CdataTokenExtend(env, at, prolog, tags, w, t, f);
    } else {
      CdataWaitExtend(env, at, prolog, tags, w, t, f);
    }
  }

  // ---- Prolog ----

  ghost predicate PrologExtends(env: Env, prolog: Prolog, w: string, t: string, f: bool)
  {
    Same(Resume(env, ProcessProlog(env, prolog, w, false), t, f), ProcessProlog(env, prolog, w + t, f))
  }

  lemma {:induction false} PrologTokenExtend(env: Env, prolog: Prolog, w: string, t: string, f: bool)
    requires var v := PrologTok(env.enc, w);
             && v.Tok? && PrologTok(env.enc, w + t) == v
             && (v.next > 0 ==> forall p :: PrologExtends(env, p, w[v.next..], t, f))
    ensures PrologExtends(env, prolog, w, t, f)
  {
    hide PrologTok; hide ProcessAt; hide Content; hide ResumeAt;
    var v := PrologTok(env.enc, w);
    Cut(w, t, v.next);
    match env.role(prolog, v.tok, w[..v.next])
    case Refuse(code) => FailureStays(env, Outermost(env), Result([], Failed(code)), t, f);
    case StartInstance(p) => ContentExtend(env, Outermost(env), p, [], w, t, f);
    case Continue(p) =>
      if v.next == 0 { FailureStays(env, Outermost(env), Result([], Failed(Aborted)), t, f); }
      else { assert PrologExtends(env, p, w[v.next..], t, f); }
  }

  lemma {:induction false} PrologSpaceExtend(env: Env, prolog: Prolog, w: string, t: string, f: bool)
    requires RoleLaws(env)
    requires var v := PrologTok(env.enc, w); var v' := PrologTok(env.enc, w + t);
             && v.Tok? && v.tok == PrologS && v'.Tok? && v'.tok == PrologS && v'.next > v.next > 0
             && v' == Shift(v.next, PrologTok(env.enc, (w + t)[v.next..]))
             && forall p :: PrologExtends(env, p, w[v.next..], t, f)
    ensures PrologExtends(env, prolog, w, t, f)
  {
    hide PrologTok; hide ProcessAt; hide Content; hide ResumeAt;
    var v, v' := PrologTok(env.enc, w), PrologTok(env.enc, w + t);
    var u := (w + t)[v.next..];
    Cut(w, t, v.next);
    var a := env.role(prolog, PrologS, w[..v.next]);
    assert SpaceInert(env, prolog, w[..v.next], (w + t)[..v'.next]);
    if a.Refuse? {
      FailureStays(env, Outermost(env), Result([], Failed(a.code)), t, f);
    } else {
      assert PrologExtends(env, a.prolog, w[v.next..], t, f);
      assert SpaceInert(env, prolog, w[..v.next], u[..v'.next - v.next]);
      assert u[v'.next - v.next..] == (w + t)[v'.next..];
    }
  }

  lemma {:induction false} PrologWaitExtend(env: Env, prolog: Prolog, w: string, t: string, f: bool)
    requires var v := PrologTok(env.enc, w); !v.Tok? && (v.Invalid? ==> PrologTok(env.enc, w + t).Invalid?)
    ensures PrologExtends(env, prolog, w, t, f)
  {
    hide PrologTok;
    NothingThen(ProcessProlog(env, prolog, w + t, f));
  }

  lemma {:induction false} PrologExtend(env: Env, prolog: Prolog, w: string, t: string, f: bool)
    requires RoleLaws(env)
    ensures PrologExtends(env, prolog, w, t, f)
    decreases |w|
  {
    hide PrologTok; hide PrologExtends; hide RoleLaws;
    var v := PrologTok(env.enc, w);
    if v.Final() { PrologTokGrows(env.enc, w, t); }
    if v.Tok? {
      if v.next > 0 {
        forall p ensures PrologExtends(env, p, w[v.next..], t, f) {
          PrologExtend(env, p, w[v.next..], t, f);
        }
      }
      if PrologTok(env.enc, w + t) == v {
        PrologTokenExtend(env, prolog, w, t, f);
      } else {
        PrologSpaceExtend(env, prolog, w, t, f);
      }
    } else {
      PrologWaitExtend(env, prolog, w, t, f);
    }
  }

  // ---- Whole documents ----

  /** Going on with more bytes after a call that was not the final one is the same as one call on all of them. */
  lemma {:induction false} ProcessExtend(env: Env, phase: Phase, prolog: Prolog, tags: seq<string>, w: string, t: string, f: bool)
    requires RoleLaws(env)
    ensures Same(Resume(env, Process(env, phase, prolog, tags, w, false), t, f), Process(env, phase, prolog, tags, w + t, f))
  {
    hide RoleLaws; hide ProcessProlog; hide Content; hide Cdata; hide Epilog; hide ResumeAt;
    match phase
    case PrologPhase => PrologExtend(env, prolog, w, t, f);
    case ContentPhase => ContentExtend(env, Outermost(env), prolog, tags, w, t, f);
    case CdataPhase => CdataExtend(env, Outermost(env), prolog, tags, w, t, f);
    case EpilogPhase => EpilogExtend(env, Outermost(env), prolog, tags, w, t, f);
  }

  /** XML_Parse on each chunk but the last, which is the final one; nothing happens on an empty chunk that is not final,
      and nothing after a failure. */
  function Parse(env: Env, phase: Phase, prolog: Prolog, tags: seq<string>, rest: string, chunks: seq<string>, last: string): Result
    decreases |chunks|
  {
    if chunks == [] then Process(env, phase, prolog, tags, rest + last, true)
    else if chunks[0] == "" then Parse(env, phase, prolog, tags, rest, chunks[1..], last)
    else
      var r := Process(env, phase, prolog, tags, rest + chunks[0], false);
      match r.outcome
      case Failed(_) => r
      case Stopped(phase', prolog', tags', rest') => Then(r.events, Parse(env, phase', prolog', tags', rest', chunks[1..], last))
  }

  function Concat(chunks: seq<string>): string
  {
    if chunks == [] then "" else chunks[0] + Concat(chunks[1..])
  }

  lemma {:induction false} ParseExtends(env: Env, phase: Phase, prolog: Prolog, tags: seq<string>, rest: string, chunks: seq<string>, last: string)
    requires RoleLaws(env)
    ensures Same(Parse(env, phase, prolog, tags, rest, chunks, last), Process(env, phase, prolog, tags, rest + (Concat(chunks) + last), true))
    decreases |chunks|
  {
    hide Process; hide ProcessAt; hide RoleLaws;
    if chunks == [] {
      assert "" + last == last;
    } else if chunks[0] == "" {
      ParseExtends(env, phase, prolog, tags, rest, chunks[1..], last);
      assert "" + Concat(chunks[1..]) == Concat(chunks[1..]);
    } else {
      var r := Process(env, phase, prolog, tags, rest + chunks[0], false);
      if r.outcome.Stopped? {
        ParseExtends(env, r.outcome.phase, r.outcome.prolog, r.outcome.tags, r.outcome.rest, chunks[1..], last);
      }
      ParseStep(env, phase, prolog, tags, rest, chunks, last);
    }
  }

  lemma {:induction false} ParseStep(env: Env, phase: Phase, prolog: Prolog, tags: seq<string>, rest: string, chunks: seq<string>, last: string)
    requires RoleLaws(env) && chunks != [] && chunks[0] != ""
    requires var o := Process(env, phase, prolog, tags, rest + chunks[0], false).outcome;
             o.Stopped? ==> Same(Parse(env, o.phase, o.prolog, o.tags, o.rest, chunks[1..], last),
                                 Process(env, o.phase, o.prolog, o.tags, o.rest + (Concat(chunks[1..]) + last), true))
    ensures Same(Parse(env, phase, prolog, tags, rest, chunks, last), Process(env, phase, prolog, tags, rest + (Concat(chunks) + last), true))
  {
    hide Process; hide ProcessAt; hide RoleLaws; hide Concat;
    var t := Concat(chunks[1..]) + last;
    assert rest + chunks[0] + t == rest + (Concat(chunks) + last) by { ConcatFirst(chunks); }
    ProcessExtend(env, phase, prolog, tags, rest + chunks[0], t, true);
    var o := Process(env, phase, prolog, tags, rest + chunks[0], false).outcome;
    if o.Stopped? { AtOutermost(env, o.phase, o.prolog, o.tags, o.rest + t, true); }
  }

  lemma {:induction false} AtOutermost(env: Env, phase: Phase, prolog: Prolog, tags: seq<string>, w: string, f: bool)
    ensures ProcessAt(env, Outermost(env), phase, prolog, tags, w, f) == Process(env, phase, prolog, tags, w, f)
  {
    hide ProcessProlog; hide Content; hide Cdata; hide Epilog;
  }

  lemma {:induction false} ConcatFirst(chunks: seq<string>)
    requires chunks != []
    ensures Concat(chunks) == chunks[0] + Concat(chunks[1..])
  {
  }

  /** Any two ways of cutting the same document give the same parse. */
  lemma {:induction false} ChunkIndependence(env: Env, prolog: Prolog, chunks: seq<string>, last: string, chunks': seq<string>, last': string)
    requires RoleLaws(env) && Concat(chunks) + last == Concat(chunks') + last'
    ensures Same(Parse(env, PrologPhase, prolog, [], "", chunks, last), Parse(env, PrologPhase, prolog, [], "", chunks', last'))
  {
    hide Process; hide ProcessAt; hide RoleLaws; hide Parse; hide Concat;
    ParseExtends(env, PrologPhase, prolog, [], "", chunks, last);
    ParseExtends(env, PrologPhase, prolog, [], "", chunks', last');
  }
}
