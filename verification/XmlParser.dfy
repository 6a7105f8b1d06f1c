/**
 The parser object of libjabber/xmlparse.c: its buffer, its processors and
 XML_Parse, XML_ParseBuffer and XML_GetBuffer.  Every method is proved against
 the functions of XmlContent, so the laws of XmlChunks and XmlNesting hold of
 the calls an application makes.
 */
module XmlParser {
  import opened XmlScan
  import opened XmlTok
  import opened XmlAtts
  import opened XmlValue
  import opened XmlContent
  import opened XmlChunks
  import opened XmlNesting
  import opened XmlTokImpl

  const INIT_BUFFER_SIZE := 1024
  const INIT_ATTS_SIZE := 16

  /** Both tables of a parser name the letter x as a name character; getAtts relies on it inside "&#x". */
  ghost predicate TableLaws(env: Env)
  {
    env.enc.byteType('x') == NMSTRT && env.internal.byteType('x') == NMSTRT
  }

  class Parser {
    const env: Env
    var buffer: array<char>
    var bufferPtr: nat
    var bufferEnd: nat
    var processor: Phase
    var prolog: Prolog
    var tagStack: seq<string>
    var openEntities: set<string>
    var pool: string
    var attsSize: nat
    var events: seq<Event>
    var errorCode: Option<Error>

    /** Expands a value at the end of the string under construction. */
    method AppendAttributeValue(enc: Encoding, isCdata: bool, text: string) returns (err: Option<Error>)
      modifies `pool, `openEntities
      ensures openEntities == old(openEntities)
      ensures match AppendValue(env.internal, prolog.dtd, old(openEntities), enc, isCdata, text, old(pool))
              case ValueError(code) => err == Some(code)
              case Value(value) => err == None && pool == value
      decreases Unopened(prolog, openEntities), 1
    {
      hide AttributeValueTok; hide Unopened; hide ExpandEntity; hide CharRefNumber; hide Utf8Encode; hide PredefinedEntityName;
      ghost var result := AppendValue(env.internal, prolog.dtd, openEntities, enc, isCdata, text, pool);
      var ptr := 0;
      while true
        invariant ptr <= |text| && openEntities == old(openEntities)
        invariant result == AppendValue(env.internal, prolog.dtd, openEntities, enc, isCdata, text[ptr..], pool)
        decreases |text| - ptr
      {
        var v := AttributeValueTokenize(enc, text[ptr..]);
        match v
        case NoBytes => return None;
        case Invalid(_) => return Some(InvalidToken);
        case Partial => return Some(InvalidToken);
        case TrailingCr =>
          pool := AppendSpace(isCdata, pool);
          assert text[ptr..][1..] == text[ptr + 1..];
          ptr := ptr + 1;
        case Tok(tok, n) =>
          var token := text[ptr..ptr + n];
          assert text[ptr..][..n] == token && text[ptr..][n..] == text[ptr + n..];
          match tok {
            case DataChars => pool := pool + token;
            case AttributeValueS | DataNewline => pool := AppendSpace(isCdata, pool);
            case CharRef =>
              var c := CharRefNumber(token);
              if c < 0 || Utf8Encode(c) == "" { return Some(BadCharRef); }
              if isCdata || c != 0x20 || !EndsInSpace(pool) { pool := pool + Utf8Encode(c); }
            case EntityRef =>
              var name := Inner(token);
              var ch := PredefinedEntityName(name);
              if ch.Some? {
                pool := pool + [ch.value];
              } else {
                err := AppendEntity(isCdata, name);
                if err.Some? { return err; }
              }
            case _ => return Some(Aborted);
          }
          ptr := ptr + n;
        case _ => return Some(Aborted);
      }
    }

    /** The expansion of a declared entity inside a value; it is open for as long as its text is scanned. */
    method AppendEntity(isCdata: bool, name: string) returns (err: Option<Error>)
      modifies `pool, `openEntities
      ensures openEntities == old(openEntities)
      ensures match ExpandEntity(env.internal, prolog.dtd, old(openEntities), isCdata, name, old(pool))
              case ValueError(code) => err == Some(code)
              case Value(value) => err == None && pool == value
      decreases Unopened(prolog, openEntities), 0
    {
      if name !in prolog.dtd.entities {
        return if prolog.dtd.complete then Some(UndefinedEntity) else None;
      }
      if name in openEntities { return Some(RecursiveEntityRef); }
      match prolog.dtd.entities[name]
      case Unparsed => return Some(BinaryEntityRef);
      case External => return Some(AttributeExternalEntityRef);
      case Internal(text) =>
        OneOpened(prolog, openEntities, name);
        openEntities := openEntities + {name};
        err := AppendAttributeValue(env.internal, isCdata, text);
        openEntities := openEntities - {name};
        assert openEntities == old(openEntities);
    }

    // ---- Elements ----

    /** storeAtts: the tag is scanned a second time when the first pass found more attributes than there was room for. */
    method StoreAttributes(enc: Encoding, tag: string, element: string) returns (err: Option<Error>, atts: seq<(string, string)>)
      requires tag != "" && GetAtts(enc, tag, 1, GETTER_START).Atts?
      modifies `pool, `openEntities, `attsSize
      ensures openEntities == old(openEntities)
      ensures match StoreAtts(env.internal, prolog.dtd, openEntities, enc, tag, element)
              case AttsError(code) => err == Some(code)
              case Stored(l) => err == None && atts == l
    {
      hide GetAtts; hide StoreValue; hide NameAt;
      var defaults := Defaults(prolog.dtd, element);
      var n, list := FillAtts(enc, tag, attsSize);
      if n + |defaults| > attsSize {
        var oldAttsSize := attsSize;
        attsSize := n + |defaults| + INIT_ATTS_SIZE;
        if n > oldAttsSize { n, list := FillAtts(enc, tag, n); }
      }
      atts := [];
      ghost var result := StoreEach(env.internal, prolog.dtd, openEntities, enc, tag, defaults, list, []);
      var i := 0;
      while i < n
        invariant i <= n == |list| && openEntities == old(openEntities)
        invariant result == StoreEach(env.internal, prolog.dtd, openEntities, enc, tag, defaults, list[i..], atts)
      {
        var name := NameAt(enc, tag, list[i].name);
        var raw := Slice(tag, list[i].valuePtr, list[i].valueEnd);
        assert list[i..][0] == list[i] && list[i..][1..] == list[i + 1..];
        if exists k :: 0 <= k < |atts| && atts[k].0 == name { return Some(DuplicateAttribute), []; }
        var text := raw;
        if !list[i].normalized {
          err, text := StoreAttributeValue(enc, IsCdata(defaults, name), raw);
          if err.Some? { return err, []; }
        }
        atts := atts + [(name, text)];
        i := i + 1;
      }
      atts := AddDefaultAtts(defaults, atts);
      return None, atts;
    }

    method StoreAttributeValue(enc: Encoding, isCdata: bool, text: string) returns (err: Option<Error>, value: string)
      modifies `pool, `openEntities
      ensures openEntities == old(openEntities)
      ensures match StoreValue(env.internal, prolog.dtd, openEntities, enc, isCdata, text)
              case ValueError(code) => err == Some(code)
              case Value(v) => err == None && value == v
    {
      hide AppendValue;
      pool := "";
      err := AppendAttributeValue(enc, isCdata, text);
      if err.Some? { return err, ""; }
      if !isCdata && pool != "" && EndsInSpace(pool) { pool := pool[..|pool| - 1]; }
      return None, pool;
    }

    method AddDefaultAtts(defaults: seq<DefaultAtt>, specified: seq<(string, string)>) returns (atts: seq<(string, string)>)
      ensures atts == AddDefaults(defaults, specified)
    {
      atts := specified;
      var j := 0;
      while j < |defaults|
        invariant j <= |defaults| && AddDefaults(defaults, specified) == AddDefaults(defaults[j..], atts)
      {
        assert defaults[j..][1..] == defaults[j + 1..];
        var d := defaults[j];
        if d.hasValue && !exists k :: 0 <= k < |atts| && atts[k].0 == d.name { atts := atts + [(d.name, d.value)]; }
        j := j + 1;
      }
    }

    /** A start tag, or an empty-element tag, which is over at once. */
    method StartTagToken(enc: Encoding, tag: string, empty: bool) returns (err: Option<Error>)
      requires tag != "" && GetAtts(enc, tag, 1, GETTER_START).Atts?
      modifies `pool, `openEntities, `attsSize, `tagStack, `events
      ensures openEntities == old(openEntities)
      ensures var name := NameAt(enc, tag, 1);
              match StoreAtts(env.internal, prolog.dtd, openEntities, enc, tag, name)
              case AttsError(code) => err == Some(code) && events == old(events)
              case Stored(atts) =>
                && err == None
                && events == old(events) + (if empty then [StartElement(name, atts), EndElement(name)] else [StartElement(name, atts)])
                && tagStack == if empty then old(tagStack) else old(tagStack) + [name]
    {
      hide GetAtts; hide StoreAtts;
      var name := NameAt(enc, tag, 1);
      var atts;
      if empty {
        err, atts := StoreAttributes(enc, tag, name);
        if err.Some? { return err; }
        events := events + [StartElement(name, atts), EndElement(name)];
      } else {
        tagStack := tagStack + [name];
        err, atts := StoreAttributes(enc, tag, name);
        if err.Some? { return err; }
        events := events + [StartElement(name, atts)];
      }
    }

    lemma {:induction false} TagDid(enc: Encoding, tag: string, empty: bool, tags: seq<string>, before: seq<Event>, err: Option<Error>)
      requires tag != ""
      requires var name := NameAt(enc, tag, 1);
               match StoreAtts(env.internal, prolog.dtd, openEntities, enc, tag, name)
               case AttsError(code) => err == Some(code) && events == before
               case Stored(atts) =>
                 && err == None
                 && events == before + (if empty then [StartElement(name, atts), EndElement(name)] else [StartElement(name, atts)])
                 && tagStack == if empty then tags else tags + [name]
      ensures Did(Tag(env, prolog, openEntities, enc, tags, tag, empty), before, err)
    {
      hide StoreAtts; hide NameAt;
    }

    method EndTagToken(enc: Encoding, tag: string, base: nat) returns (err: Option<Error>)
      requires base <= |tagStack|
      modifies `tagStack, `events
      ensures var name := NameAt(enc, tag, 2); var tags := old(tagStack);
              if |tags| == base then err == Some(AsyncEntity) && events == old(events)
              else if tags[|tags| - 1] != name then err == Some(TagMismatch) && events == old(events)
              else err == None && events == old(events) + [EndElement(name)] && tagStack == tags[..|tags| - 1]
    {
      if |tagStack| == base { return Some(AsyncEntity); }
      var open := tagStack[|tagStack| - 1];
      tagStack := tagStack[..|tagStack| - 1];
      var name := NameAt(enc, tag, 2);
      if name != open { return Some(TagMismatch); }
      events := events + [EndElement(name)];
      return None;
    }

    // ---- Processors ----

    /** The fields and the answer are those of `r`; the next pointer is only given when the call is not the final one. */
    ghost predicate Returned(r: Result, before: seq<Event>, err: Option<Error>, rest: string, final: bool)
      reads `events, `processor, `prolog, `tagStack
    {
      && events == before + r.events
      && match r.outcome
         case Failed(code) => err == Some(code)
         case Stopped(phase, prolog', tags, rest') =>
           err == None && processor == phase && prolog == prolog' && tagStack == tags && (!final ==> rest == rest')
    }

    method EpilogProcessor(s: string, final: bool) returns (err: Option<Error>, next: nat)
      modifies `processor
      ensures next <= |s|
      ensures Returned(Epilog(env, prolog, tagStack, s, final), old(events), err, s[next..], final)
    {
      hide PrologTok; hide Epilog;
      processor := EpilogPhase;
      next := 0;
      assert s[0..] == s && s[|s|..] == "";
      while true
        invariant next <= |s| && processor == EpilogPhase
        invariant Epilog(env, prolog, tagStack, s, final) == Epilog(env, prolog, tagStack, s[next..], final)
        decreases |s| - next
      {
        var v := PrologTokenize(env.enc, s[next..]);
        EpilogUnfold(env, prolog, tagStack, s[next..], final);
        match v
        case NoBytes | TrailingCr => return None, |s|;
        case Tok(tok, n) =>
          if tok != PrologS && tok != Pi && tok != Comment { return Some(JunkAfterDocElement), next; }
          assert s[next..][n..] == s[next + n..];
          next := next + n;
        case Invalid(_) => return Some(InvalidToken), next;
        case PartialChar => return if final then Some(PartialCharacter) else None, next;
        case _ => return if final then Some(UnclosedToken) else None, next;
      }
    }

    /** doCdataSection, with where the content goes on behind the section when it was closed. */
    method DoCdataSection(base: nat, enc: Encoding, s: string, start: nat, final: bool) returns (closed: bool, err: Option<Error>, next: nat, ghost seen: seq<Event>)
      requires start <= |s|
      modifies `events
      ensures start <= next <= |s| && events == old(events) + seen
      ensures CdataDone(Cdata(env, prolog, openEntities, enc, base, tagStack, s[start..], final), base, enc, s, final, closed, err, next, seen)
    {
      hide *;
      ghost var r := Cdata(env, prolog, openEntities, enc, base, tagStack, s[start..], final);
      seen := [];
      next := start;
      NothingThen(r);
      Appends(old(events), [], []);
      while true
        invariant start <= next <= |s| && events == old(events) + seen
        invariant r == Then(seen, Cdata(env, prolog, openEntities, enc, base, tagStack, s[next..], final))
        decreases |s| - next
      {
        var v := CdataSectionTokenize(enc, s[next..]);
        if v.Tok? {
          CdataGoesOn(env, prolog, openEntities, enc, base, tagStack, s, next, final, seen);
          if v.tok == CdataSectClose {
            CdataCloses(r, base, enc, s, final, next + v.next, seen);
            return true, None, next + v.next, seen;
          }
          var e := if v.tok == DataNewline then [CharByte('\n')] else CharBytes(s[next..next + v.next]);
          Appends(old(events), seen, e);
          events, seen, next := events + e, seen + e, next + v.next;
        } else {
          match v {
            case Invalid(_) => err := Some(InvalidToken);
            case PartialChar => err := if final then Some(PartialCharacter) else None;
            case _ => err := if final then Some(UnclosedCdataSection) else None;
          }
          CdataStops(r, base, enc, s, v, final, err, next, seen);
          return false, err, next, seen;
        }
      }
    }

    /** Where the loop of doCdataSection ends: behind the section, or where it stops for want of bytes or with an error. */
    ghost predicate CdataDone(r: Result, base: nat, enc: Encoding, s: string, final: bool, closed: bool, err: Option<Error>, next: nat, seen: seq<Event>)
      requires next <= |s|
      reads this
    {
      && r == Then(seen, if closed then Content(env, prolog, openEntities, enc, base, tagStack, s[next..], final)
                         else Result([], if err.Some? then Failed(err.value) else Stopped(CdataPhase, prolog, tagStack, s[next..])))
      && (closed ==> err == None) && (!closed && err == None ==> !final)
    }

    lemma {:induction false} CdataCloses(r: Result, base: nat, enc: Encoding, s: string, final: bool, next: nat, seen: seq<Event>)
      requires next <= |s| && r == Then(seen, Content(env, prolog, openEntities, enc, base, tagStack, s[next..], final))
      ensures CdataDone(r, base, enc, s, final, true, None, next, seen)
    {
      hide Content; hide Then;
    }

    lemma {:induction false} CdataStops(r: Result, base: nat, enc: Encoding, s: string, v: Verdict, final: bool, err: Option<Error>, next: nat, seen: seq<Event>)
      requires next <= |s| && v == CdataTok(enc, s[next..]) && !v.Tok?
      requires r == Then(seen, Cdata(env, prolog, openEntities, enc, base, tagStack, s[next..], final))
      requires err == if v.Invalid? then Some(InvalidToken) else if !final then None else Some(if v.PartialChar? then PartialCharacter else UnclosedCdataSection)
      ensures CdataDone(r, base, enc, s, final, false, err, next, seen)
    {
      hide Content; hide Then; hide CdataTok;
    }

    lemma {:induction false} Appends(a: seq<Event>, b: seq<Event>, c: seq<Event>)
      ensures a + b + c == a + (b + c) && a + [] == a
    {
    }

    /** The fields and the answer of the switch of doContent. */
    ghost predicate Did(h: Result, before: seq<Event>, err: Option<Error>)
      reads `events, `tagStack
    {
      && events == before + h.events
      && err == (if h.outcome.Failed? then Some(h.outcome.code) else None)
      && (h.outcome.Stopped? ==> tagStack == h.outcome.tags)
    }

    /** A general entity reference; the entity is open for as long as its text is parsed. */
    method ReferenceToken(name: string) returns (err: Option<Error>)
      requires TableLaws(env) && processor == ContentPhase && tagStack != []
      modifies `tagStack, `openEntities, `pool, `attsSize, `events, `processor
      ensures openEntities == old(openEntities) && processor == ContentPhase
      ensures Did(Expand(env, prolog, openEntities, old(tagStack), name), old(events), err)
      decreases Unopened(prolog, openEntities), 1
    {
      hide PredefinedEntityName; hide Content; hide Fine;
      var ch := PredefinedEntityName(name);
      var entities := prolog.dtd.entities;
      if ch.Some? {
        events := events + [CharByte(ch.value)];
        return None;
      }
      if name !in entities {
        return if prolog.dtd.complete || prolog.dtd.standalone then Some(UndefinedEntity) else None;
      }
      if name in openEntities { return Some(RecursiveEntityRef); }
      match entities[name]
      case Unparsed => return Some(BinaryEntityRef);
      case External => return None;
      case Internal(text) => err := EntityText(name, text);
    }

    method EntityText(name: string, text: string) returns (err: Option<Error>)
      requires TableLaws(env) && processor == ContentPhase && tagStack != []
      requires name in prolog.dtd.entities && name !in openEntities
      modifies `tagStack, `openEntities, `pool, `attsSize, `events, `processor
      ensures openEntities == old(openEntities) && processor == ContentPhase
      ensures var tags := old(tagStack);
              Did(Content(env, prolog, openEntities + {name}, env.internal, |tags|, tags, text, true), old(events), err)
      decreases Unopened(prolog, openEntities), 0
    {
      hide *;
      ghost var tags, before, all := tagStack, events, openEntities + {name};
      OneOpened(prolog, openEntities, name);
      InsideReady(env, tagStack, text);
      ContentFine(env, prolog, all, env.internal, |tagStack|, tagStack, text, true);
      openEntities := openEntities + {name};
      var next;
      err, next := DoContent(|tagStack|, env.internal, text, true);
      openEntities := openEntities - {name};
      assert openEntities == old(openEntities);
      EntityDone(tags, Content(env, prolog, all, env.internal, |tags|, tags, text, true), before, err, text[next..]);
      if err.Some? { processor := ContentPhase; }
    }

    lemma {:induction false} EntityDone(tags: seq<string>, r: Result, before: seq<Event>, err: Option<Error>, rest: string)
      requires tags != [] && Fine(|tags|, tags, true, r) && Returned(r, before, err, rest, true)
      ensures Did(r, before, err) && (err == None ==> processor == ContentPhase)
    {
    }

    /** The switch of doContent for every token but the start of a CDATA section. */
    method HandleToken(base: nat, enc: Encoding, tok: Token, token: string) returns (err: Option<Error>)
      requires TableLaws(env) && processor == ContentPhase && base <= |tagStack|
      requires tagStack == [] ==> StartTag(tok)
      requires StartTag(tok) ==> token != "" && GetAtts(enc, token, 1, GETTER_START).Atts?
      modifies `tagStack, `openEntities, `pool, `attsSize, `events, `processor
      ensures openEntities == old(openEntities) && processor == ContentPhase
      ensures Did(Handle(env, prolog, openEntities, enc, base, old(tagStack), tok, token), old(events), err)
      decreases Unopened(prolog, openEntities), 2
    {
      hide StoreAtts; hide GetAtts; hide Expand; hide NameAt; hide CharRefNumber; hide Utf8Encode; hide Unopened; hide CharBytes; hide TableLaws; hide Inner; hide Tag;
      match tok
      case StartTagWithAtts | StartTagNoAtts => err := StartTagToken(enc, token, false); TagDid(enc, token, false, old(tagStack), old(events), err);
      case EmptyElementWithAtts | EmptyElementNoAtts => err := StartTagToken(enc, token, true); TagDid(enc, token, true, old(tagStack), old(events), err);
      case EndTag => err := EndTagToken(enc, token, base);
      case EntityRef => err := ReferenceToken(Inner(token));
      case CharRef =>
        var n := CharRefNumber(token);
        if n < 0 { return Some(BadCharRef); }
        events := events + CharBytes(Utf8Encode(n));
        return None;
      case XmlDecl => return Some(MisplacedXmlPi);
      case DataNewline => events := events + [CharByte('\n')]; return None;
      case DataChars => events := events + CharBytes(token); return None;
      case _ => return None;
    }

    lemma {:induction false} ReturnedLater(done: seq<Event>, here: Result, before: seq<Event>, err: Option<Error>, rest: string, final: bool)
      requires Returned(here, before + done, err, rest, final)
      ensures Returned(Then(done, here), before, err, rest, final)
    {
      assert before + done + here.events == before + (done + here.events);
    }

    /** The cases of doContent without a token: the input is over, needs more bytes, or is not allowed. */
    method NoTokenLeft(base: nat, enc: Encoding, w: string, v: Verdict, final: bool) returns (err: Option<Error>)
      requires v == ContentTok(enc, w) && !v.Tok? && processor == ContentPhase
      modifies `events
      ensures Returned(Content(env, prolog, openEntities, enc, base, tagStack, w, final), old(events), err, w, final)
    {
      hide ContentTok; hide Handle; hide Cdata; hide Epilog;
      if v.Invalid? { return Some(InvalidToken); }
      if !final { return None; }
      if v.Partial? { return Some(UnclosedToken); }
      if v.PartialChar? { return Some(PartialCharacter); }
      if v.TrailingCr? {
        events := events + [CharByte('\n')];
      } else if v.TrailingRsqb? {
        events := events + CharBytes(w);
      }
      if base == 0 { return Some(NoElements); }
      return if |tagStack| != base then Some(AsyncEntity) else None;
    }

    /** One turn of the loop of doContent on a token: `go` says that the loop goes on at `next`. */
    ghost predicate Turned(r: Result, before: seq<Event>, base: nat, enc: Encoding, s: string, final: bool,
                           go: bool, err: Option<Error>, next: nat, seen: seq<Event>)
      requires next <= |s|
      reads this
    {
      if go then
        && err == None && events == before + seen && processor == ContentPhase && base <= |tagStack| && tagStack != []
        && r == Then(seen, Content(env, prolog, openEntities, enc, base, tagStack, s[next..], final))
      else Returned(r, before, err, s[next..], final)
    }

    method NoTokenTurn(base: nat, enc: Encoding, s: string, start: nat, v: Verdict, final: bool) returns (err: Option<Error>)
      requires start <= |s| && v == ContentTok(enc, s[start..]) && !v.Tok? && processor == ContentPhase
      modifies `events
      ensures Turned(Content(env, prolog, openEntities, enc, base, tagStack, s[start..], final), old(events), base, enc, s, final, false, err, start, [])
    {
      hide Content; hide ContentTok; hide Returned;
      err := NoTokenLeft(base, enc, s[start..], v, final);
    }

    method CdataTurn(base: nat, enc: Encoding, s: string, start: nat, final: bool)
      returns (go: bool, err: Option<Error>, next: nat, ghost seen: seq<Event>)
      requires start <= |s| && processor == ContentPhase && base <= |tagStack| && tagStack != []
      modifies `events, `processor
      ensures start <= next <= |s|
      ensures Turned(Cdata(env, prolog, openEntities, enc, base, tagStack, s[start..], final), old(events), base, enc, s, final, go, err, next, seen)
    {
      hide Content; hide Cdata;
      go, err, next, seen := DoCdataSection(base, enc, s, start, final);
      if !go {
        processor := CdataPhase;
        assert seen + [] == seen;
      }
    }

    method TokenTurn(base: nat, enc: Encoding, s: string, start: nat, tok: Token, token: string, final: bool)
      returns (go: bool, err: Option<Error>, next: nat, ghost seen: seq<Event>)
      requires start <= |s| && TableLaws(env) && processor == ContentPhase && base <= |tagStack|
      requires tagStack == [] ==> StartTag(tok)
      requires StartTag(tok) ==> token != "" && GetAtts(enc, token, 1, GETTER_START).Atts?
      modifies `tagStack, `openEntities, `pool, `attsSize, `events, `processor
      ensures openEntities == old(openEntities) && start <= next <= |s|
      ensures var h := Handle(env, prolog, openEntities, enc, base, old(tagStack), tok, token);
              Turned(AfterToken(env, prolog, openEntities, enc, base, tok, h, s[start..], final), old(events), base, enc, s, final, go, err, next, seen)
      decreases Unopened(prolog, openEntities), 3
    {
      hide *;
      ghost var tags, before := tagStack, events;
      ghost var h := Handle(env, prolog, openEntities, enc, base, tagStack, tok, token);
      EntitiesFine(env, prolog, openEntities, enc, base, tagStack, tok, token);
      err := HandleToken(base, enc, tok, token);
      go, next, seen := false, start, h.events;
      if err.Some? {
        TokenFailed(base, enc, tok, h, s, start, final, before, err);
      } else {
        TokenTaken(base, enc, tags, tok, h, s, start, final, before);
        if tagStack != [] { go := true; } else { err, next := EpilogTurn(base, enc, s, start, final, seen, before); }
      }
    }

    lemma {:induction false} TokenFailed(base: nat, enc: Encoding, tok: Token, h: Result, s: string, start: nat, final: bool, before: seq<Event>, err: Option<Error>)
      requires start <= |s| && Did(h, before, err) && err.Some?
      ensures Turned(AfterToken(env, prolog, openEntities, enc, base, tok, h, s[start..], final), before, base, enc, s, final, false, err, start, h.events)
    {
      hide Content; hide Epilog;
    }

    /** Behind a token inside an element, and behind the end of the root. */
    lemma {:induction false} TokenTaken(base: nat, enc: Encoding, tags: seq<string>, tok: Token, h: Result, s: string, start: nat, final: bool, before: seq<Event>)
      requires start <= |s| && Did(h, before, None) && Handled(base, tags, tok, h) && processor == ContentPhase
      ensures var r := AfterToken(env, prolog, openEntities, enc, base, tok, h, s[start..], final);
              if tagStack != [] then Turned(r, before, base, enc, s, final, true, None, start, h.events)
              else r == Then(h.events, Epilog(env, prolog, [], s[start..], final)) && events == before + h.events
    {
      hide Content; hide Epilog; hide Handled; hide Closes;
      HandledAbove(base, tags, tok, h);
    }

    /** The root was closed: the rest of the call is the epilog's. */
    method EpilogTurn(ghost base: nat, ghost enc: Encoding, s: string, start: nat, final: bool, ghost seen: seq<Event>, ghost before: seq<Event>) returns (err: Option<Error>, next: nat)
      requires start <= |s| && tagStack == [] && events == before + seen
      modifies `processor
      ensures start <= next <= |s|
      ensures Turned(Then(seen, Epilog(env, prolog, [], s[start..], final)), before, base, enc, s, final, false, err, next, seen)
    {
      hide Epilog; hide Returned; hide Content;
      var n;
      err, n := EpilogProcessor(s[start..], final);
      next := start + n;
      assert s[start..][n..] == s[next..];
      ReturnedLater(seen, Epilog(env, prolog, [], s[start..], final), before, err, s[next..], final);
    }

    method ContentTurn(base: nat, enc: Encoding, s: string, start: nat, final: bool)
      returns (go: bool, err: Option<Error>, next: nat, ghost seen: seq<Event>)
      requires TableLaws(env) && processor == ContentPhase && start <= |s|
      requires Ready(env, enc, base, tagStack, s[start..]) && (enc == env.enc || enc == env.internal)
      modifies `tagStack, `openEntities, `pool, `attsSize, `events, `processor
      ensures openEntities == old(openEntities) && start <= next <= |s| && (go ==> start < next)
      ensures Turned(Content(env, prolog, openEntities, enc, base, old(tagStack), s[start..], final), old(events), base, enc, s, final, go, err, next, seen)
      decreases Unopened(prolog, openEntities), 5
    {
      hide *;
      var v := ContentTokenize(enc, s[start..]);
      if v.Tok? {
        ReadyFacts(env, enc, base, tagStack, s[start..]);
        go, err, next, seen := TokenAt(base, enc, s, start, v, final);
      } else {
        err := NoTokenTurn(base, enc, s, start, v, final);
        go, next, seen := false, start, [];
      }
    }

    method TokenAt(base: nat, enc: Encoding, s: string, start: nat, v: Verdict, final: bool)
      returns (go: bool, err: Option<Error>, next: nat, ghost seen: seq<Event>)
      requires TableLaws(env) && processor == ContentPhase && start <= |s| && base <= |tagStack| && enc.byteType('x') == NMSTRT
      requires v == ContentTok(enc, s[start..]) && v.Tok? && (tagStack == [] ==> StartTag(v.tok) && v.tok != CdataSectOpen)
      modifies `tagStack, `openEntities, `pool, `attsSize, `events, `processor
      ensures openEntities == old(openEntities) && start < next <= |s|
      ensures Turned(Content(env, prolog, openEntities, enc, base, old(tagStack), s[start..], final), old(events), base, enc, s, final, go, err, next, seen)
      decreases Unopened(prolog, openEntities), 4
    {
      hide *;
      ContentTokenAt(env, prolog, openEntities, enc, base, tagStack, s, start, v, final);
      if v.tok == CdataSectOpen {
        go, err, next, seen := CdataTurn(base, enc, s, start + v.next, final);
      } else {
        var token := s[start..start + v.next];
        TagReadyAt(enc, s, start, v, token);
        go, err, next, seen := TokenTurn(base, enc, s, start + v.next, v.tok, token, final);
      }
    }

    /** doContent. */
    method DoContent(base: nat, enc: Encoding, s: string, final: bool) returns (err: Option<Error>, next: nat)
      requires TableLaws(env) && processor == ContentPhase
      requires Ready(env, enc, base, tagStack, s) && (enc == env.enc || enc == env.internal)
      modifies `tagStack, `openEntities, `pool, `attsSize, `events, `processor
      ensures openEntities == old(openEntities) && next <= |s|
      ensures Returned(Content(env, prolog, openEntities, enc, base, old(tagStack), s, final), old(events), err, s[next..], final)
      decreases Unopened(prolog, openEntities), 6
    {
      hide *;
      ghost var r := Content(env, prolog, openEntities, enc, base, tagStack, s, final);
      ghost var done: seq<Event> := [];
      next := 0;
      NothingThen(r);
      assert s[0..] == s;
      while true
        invariant next <= |s| && events == old(events) + done
        invariant openEntities == old(openEntities) && processor == ContentPhase
        invariant Ready(env, enc, base, tagStack, s[next..])
        invariant r == Then(done, Content(env, prolog, openEntities, enc, base, tagStack, s[next..], final))
        decreases |s| - next
      {
        ghost var here := Content(env, prolog, openEntities, enc, base, tagStack, s[next..], final);
        var go; ghost var seen;
        go, err, next, seen := ContentTurn(base, enc, s, next, final);
        if !go {
          TurnReturns(here, old(events) + done, base, enc, s, final, err, next, seen);
          ReturnedLater(done, here, old(events), err, s[next..], final);
          return err, next;
        }
        TurnGoesOn(here, old(events) + done, base, enc, s, final, err, next, seen);
        ThenThen(done, seen, Content(env, prolog, openEntities, enc, base, tagStack, s[next..], final));
        Appends(old(events), done, seen);
        done := done + seen;
      }
    }

    lemma {:induction false} TurnReturns(r: Result, before: seq<Event>, base: nat, enc: Encoding, s: string, final: bool, err: Option<Error>, next: nat, seen: seq<Event>)
      requires next <= |s| && Turned(r, before, base, enc, s, final, false, err, next, seen)
      ensures Returned(r, before, err, s[next..], final)
    {
      hide Returned; hide Content;
    }

    lemma {:induction false} TurnGoesOn(r: Result, before: seq<Event>, base: nat, enc: Encoding, s: string, final: bool, err: Option<Error>, next: nat, seen: seq<Event>)
      requires next <= |s| && Turned(r, before, base, enc, s, final, true, err, next, seen)
      ensures events == before + seen && processor == ContentPhase && Ready(env, enc, base, tagStack, s[next..])
      ensures r == Then(seen, Content(env, prolog, openEntities, enc, base, tagStack, s[next..], final))
    {
      hide Returned; hide Content; hide AtRoot;
    }

    method CdataSectionProcessor(s: string, final: bool) returns (err: Option<Error>, next: nat)
      requires TableLaws(env) && openEntities == {} && processor == CdataPhase && tagStack != []
      modifies `tagStack, `openEntities, `pool, `attsSize, `events, `processor
      ensures openEntities == {} && next <= |s|
      ensures Returned(Cdata(env, prolog, {}, env.enc, 0, old(tagStack), s, final), old(events), err, s[next..], final)
    {
      hide Content; hide Cdata; hide Returned; hide AtRoot;
      assert s[0..] == s;
      var closed; ghost var seen;
      ghost var before := events;
      closed, err, next, seen := DoCdataSection(0, env.enc, s, 0, final);
      if closed {
        processor := ContentPhase;
        ghost var here := Content(env, prolog, {}, env.enc, 0, tagStack, s[next..], final);
        var n;
        var rest := s[next..];
        err, n := DoContent(0, env.enc, rest, final);
        assert rest[n..] == s[next + n..];
        next := next + n;
        ReturnedLater(seen, here, before, err, s[next..], final);
      } else {
        CdataReturned(seen, before, err, s[next..], final);
      }
    }

    lemma {:induction false} CdataReturned(seen: seq<Event>, before: seq<Event>, err: Option<Error>, rest: string, final: bool)
      requires events == before + seen && processor == CdataPhase
      ensures Returned(Then(seen, Result([], if err.Some? then Failed(err.value) else Stopped(CdataPhase, prolog, tagStack, rest))), before, err, rest, final)
    {
      assert seen + [] == seen;
    }

    method PrologProcessor(s: string, final: bool) returns (err: Option<Error>, next: nat)
      requires TableLaws(env) && RoleLaws(env) && openEntities == {} && processor == PrologPhase && tagStack == []
      modifies `tagStack, `openEntities, `pool, `attsSize, `events, `processor, `prolog
      ensures openEntities == {} && next <= |s|
      ensures Returned(ProcessProlog(env, old(prolog), s, final), old(events), err, s[next..], final)
    {
      hide PrologTok; hide Content; hide AtRoot; hide Returned; hide ProcessProlog; hide RoleLaws;
      next := 0;
      assert s[0..] == s;
      while true
        invariant next <= |s| && events == old(events)
        invariant openEntities == {} && processor == PrologPhase && tagStack == []
        invariant ProcessProlog(env, old(prolog), s, final) == ProcessProlog(env, prolog, s[next..], final)
        decreases |s| - next
      {
        var w := s[next..];
        var v := PrologTokenize(env.enc, w);
        PrologUnfolds(env, prolog, w, final);
        if !v.Tok? {
          err := if v.Invalid? then Some(InvalidToken) else if !final then None
                 else if v.NoBytes? || v.TrailingCr? then Some(NoElements)
                 else if v.PartialChar? then Some(PartialCharacter) else Some(UnclosedToken);
          PrologReturned(ProcessProlog(env, prolog, w, final), old(events), err, w, final);
          return err, next;
        }
        var action := env.role(prolog, v.tok, w[..v.next]);
        if action.Refuse? {
          PrologReturned(ProcessProlog(env, prolog, w, final), old(events), Some(action.code), w, final);
          return Some(action.code), next;
        }
        if action.StartInstance? {
          StartsAtRoot(env, prolog, w);
          processor := ContentPhase;
          prolog := action.prolog;
          var n;
          err, n := DoContent(0, env.enc, w, final);
          assert w[n..] == s[next + n..];
          return err, next + n;
        }
        if v.next == 0 {
          PrologReturned(ProcessProlog(env, prolog, w, final), old(events), Some(Aborted), w, final);
          return Some(Aborted), next;
        }
        assert w[v.next..] == s[next + v.next..];
        prolog := action.prolog;
        next := next + v.next;
      }
    }

    lemma {:induction false} PrologReturned(r: Result, before: seq<Event>, err: Option<Error>, rest: string, final: bool)
      requires events == before && r.events == [] && processor == PrologPhase && tagStack == []
      requires err == None ==> r.outcome == Stopped(PrologPhase, prolog, [], rest)
      requires err.Some? ==> r.outcome == Failed(err.value)
      ensures Returned(r, before, err, rest, final)
    {
    }

    /** One call of the current processor on the bytes at hand. */
    method CallProcessor(s: string, final: bool) returns (err: Option<Error>, next: nat)
      requires TableLaws(env) && RoleLaws(env) && openEntities == {} && Between(env, processor, tagStack, s)
      modifies `tagStack, `openEntities, `pool, `attsSize, `events, `processor, `prolog
      ensures openEntities == {} && next <= |s|
      ensures Returned(Process(env, old(processor), old(prolog), old(tagStack), s, final), old(events), err, s[next..], final)
    {
      hide RoleLaws; hide Returned; hide AtRoot; hide Content; hide Cdata; hide Epilog; hide ProcessProlog;
      match processor
      case PrologPhase => err, next := PrologProcessor(s, final);
      case ContentPhase => err, next := DoContent(0, env.enc, s, final);
      case CdataPhase => err, next := CdataSectionProcessor(s, final);
      case EpilogPhase => err, next := EpilogProcessor(s, final);
    }

    // ---- The buffer ----

    /** The bytes kept between two calls. */
    function Leftover(): string
      requires bufferPtr <= bufferEnd <= buffer.Length
      reads this, buffer
    {
      buffer[bufferPtr..bufferEnd]
    }

    ghost predicate Valid()
      reads this, buffer
    {
      && TableLaws(env) && RoleLaws(env) && openEntities == {}
      && bufferPtr <= bufferEnd <= buffer.Length
      && Between(env, processor, tagStack, Leftover())
    }

    constructor (env: Env, dtd: Dtd)
      requires TableLaws(env) && RoleLaws(env)
      ensures Valid() && fresh(buffer) && Leftover() == "" && events == []
      ensures this.env == env && processor == PrologPhase && tagStack == [] && prolog == Initial(dtd)
    {
      this.env := env;
      buffer := new char[0];
      bufferPtr, bufferEnd := 0, 0;
      processor, prolog, tagStack, openEntities := PrologPhase, Initial(dtd), [], {};
      pool, attsSize, events, errorCode := "", INIT_ATTS_SIZE, [], None;
    }

    /** XML_GetBuffer: room for `len` more bytes behind the leftovers, which are moved down or copied as needed. */
    method GetBuffer(len: nat)
      requires bufferPtr <= bufferEnd <= buffer.Length
      modifies `buffer, `bufferPtr, `bufferEnd, buffer
      ensures bufferPtr <= bufferEnd && bufferEnd + len <= buffer.Length
      ensures buffer == old(buffer) || fresh(buffer)
      ensures Leftover() == old(Leftover())
    {
      if len <= buffer.Length - bufferEnd { return; }
      var left := bufferEnd - bufferPtr;
      var neededSize := len + left;
      if neededSize <= buffer.Length {
        MoveDown(buffer, bufferPtr, left);
      } else {
        var bufferSize := buffer.Length - bufferPtr;
        if bufferSize == 0 { bufferSize := INIT_BUFFER_SIZE; }
        bufferSize := 2 * bufferSize;
        while bufferSize < neededSize
          invariant bufferSize > 0
          decreases neededSize - bufferSize
        {
          bufferSize := 2 * bufferSize;
        }
        var newBuf := new char[bufferSize];
        var kept := buffer[bufferPtr..bufferEnd];
        CopyIn(newBuf, 0, kept);
        buffer := newBuf;
      }
      bufferPtr, bufferEnd := 0, left;
    }

    /** XML_ParseBuffer, on `len` bytes that were put behind the leftovers. */
    method ParseBuffer(len: nat, isFinal: bool) returns (ok: bool)
      requires TableLaws(env) && RoleLaws(env) && openEntities == {} && bufferPtr <= bufferEnd && bufferEnd + len <= buffer.Length
      requires Between(env, processor, tagStack, buffer[bufferPtr..bufferEnd + len])
      modifies this
      ensures buffer == old(buffer)
      ensures Answered(Process(env, old(processor), old(prolog), old(tagStack), old(buffer[bufferPtr..bufferEnd + len]), isFinal), old(events), isFinal, ok)
    {
      hide RoleLaws; hide Process; hide Between;
      var data := buffer[bufferPtr..bufferEnd + len];
      ProcessStops(env, processor, prolog, tagStack, data, isFinal);
      bufferEnd := bufferEnd + len;
      var next;
      errorCode, next := CallProcessor(data, isFinal);
      if errorCode.Some? { return false; }
      if !isFinal {
        bufferPtr := bufferPtr + next;
        assert Leftover() == data[next..];
      }
      return true;
    }

    /** What a caller of XML_Parse is told and finds afterwards. */
    ghost predicate Answered(r: Result, before: seq<Event>, isFinal: bool, ok: bool)
      reads this, buffer
    {
      && events == before + r.events
      && match r.outcome
         case Failed(code) => !ok && errorCode == Some(code)
         case Stopped(phase, prolog', tags, rest) =>
           && ok && processor == phase && prolog == prolog' && tagStack == tags
           && (!isFinal ==> Valid() && Leftover() == rest)
    }

    /** XML_Parse. */
    method Parse(s: string, isFinal: bool) returns (ok: bool)
      requires Valid()
      modifies this, buffer
      ensures buffer == old(buffer) || fresh(buffer)
      ensures s == "" && !isFinal ==> ok && Valid() && Leftover() == old(Leftover()) && events == old(events)
                                      && processor == old(processor) && prolog == old(prolog) && tagStack == old(tagStack)
      ensures s != "" || isFinal ==>
                Answered(Process(env, old(processor), old(prolog), old(tagStack), old(Leftover()) + s, isFinal), old(events), isFinal, ok)
    {
      hide RoleLaws; hide Process; hide Between;
      BetweenMore(env, processor, tagStack, Leftover(), s);
      if s == "" {
        if !isFinal { return true; }
        assert Leftover() + "" == Leftover();
        ok := ParseBuffer(0, true);
      } else if bufferPtr == bufferEnd {
        assert Leftover() + s == s;
        ok := ParseDirectly(s, isFinal);
      } else {
        ghost var left := Leftover();
        GetBuffer(|s|);
        ghost var below := buffer[..bufferEnd];
        CopyIn(buffer, bufferEnd, s);
        FilledIn(buffer[..], below, s, bufferPtr, bufferEnd);
        assert left == below[bufferPtr..];
        ok := ParseBuffer(|s|, isFinal);
      }
    }

    /** The branch of XML_Parse without leftovers: the caller's bytes are parsed where they are, and only what is left over is copied. */
    method ParseDirectly(s: string, isFinal: bool) returns (ok: bool)
      requires TableLaws(env) && RoleLaws(env) && openEntities == {} && bufferPtr == bufferEnd <= buffer.Length
      requires Between(env, processor, tagStack, s)
      modifies this, buffer
      ensures buffer == old(buffer) || fresh(buffer)
      ensures Answered(Process(env, old(processor), old(prolog), old(tagStack), s, isFinal), old(events), isFinal, ok)
    {
      hide RoleLaws; hide Process; hide Between;
      ProcessStops(env, processor, prolog, tagStack, s, isFinal);
      var next;
      errorCode, next := CallProcessor(s, isFinal);
      if errorCode.Some? { return false; }
      if isFinal { return true; }
      var nLeftOver := |s| - next;
      if nLeftOver > 0 {
        if nLeftOver > buffer.Length { buffer := new char[2 * |s|]; }
        CopyIn(buffer, 0, s[next..]);
        bufferPtr, bufferEnd := 0, nLeftOver;
      }
      assert Leftover() == s[next..];
      return true;
    }

    /** A whole document, as xmlnode_file feeds it: chunk after chunk, the last one final, up to the first failure. */
    method ParseDocument(chunks: seq<string>, last: string) returns (ok: bool)
      requires Valid() && events == []
      modifies this, buffer
      ensures var r := XmlChunks.Parse(env, old(processor), old(prolog), old(tagStack), old(Leftover()), chunks, last);
              events == r.events && ok == r.outcome.Stopped? && (!ok ==> errorCode == Some(r.outcome.code))
    {
      hide RoleLaws; hide Process; hide Between;
      ghost var r := XmlChunks.Parse(env, processor, prolog, tagStack, Leftover(), chunks, last);
      var i := 0;
      NothingThen(r);
      assert chunks[0..] == chunks;
      while i < |chunks|
        invariant i <= |chunks| && Valid() && (buffer == old(buffer) || fresh(buffer))
        invariant r == Then(events, XmlChunks.Parse(env, processor, prolog, tagStack, Leftover(), chunks[i..], last))
      {
        ghost var here := Process(env, processor, prolog, tagStack, Leftover() + chunks[i], false);
        ghost var before := events;
        assert chunks[i..][0] == chunks[i] && chunks[i..][1..] == chunks[i + 1..];
        ok := Parse(chunks[i], false);
        if !ok { return false; }
        i := i + 1;
        if chunks[i - 1] != "" {
          ThenThen(before, here.events, XmlChunks.Parse(env, processor, prolog, tagStack, Leftover(), chunks[i..], last));
        }
      }
      ok := Parse(last, true);
    }
  }

  /** memmove to the start of the array. */
  method MoveDown(a: array<char>, from: nat, n: nat)
    requires from + n <= a.Length
    modifies a
    ensures a[..n] == old(a[from..from + n])
  {
    var i := 0;
    while i < n
      invariant i <= n
      invariant a[..i] == old(a[from..from + i])
      invariant forall k :: i <= k < a.Length ==> a[k] == old(a[k])
    {
      a[i] := a[from + i];
      i := i + 1;
    }
  }

  /** New bytes behind the leftovers. */
  lemma {:induction false} FilledIn(bytes: string, below: string, s: string, from: nat, end: nat)
    requires from <= end == |below| && end + |s| <= |bytes| && bytes[..end] == below && bytes[end..end + |s|] == s
    ensures bytes[from..end + |s|] == below[from..] + s
  {
    assert bytes[from..end] == below[from..];
  }

  /** memcpy into the array. */
  method CopyIn(a: array<char>, at: nat, s: string)
    requires at + |s| <= a.Length
    modifies a
    ensures a[at..at + |s|] == s && a[..at] == old(a[..at])
  {
    var i := 0;
    while i < |s|
      invariant i <= |s|
      invariant a[at..at + i] == s[..i] && a[..at] == old(a[..at])
    {
      a[at + i] := s[i];
      i := i + 1;
    }
  }

  lemma {:induction false} PrologUnfolds(env: Env, prolog: Prolog, w: string, final: bool)
    ensures var v := PrologTok(env.enc, w);
            var r := ProcessProlog(env, prolog, w, final);
            if v.Tok? then
              match env.role(prolog, v.tok, w[..v.next]) {
                case Refuse(code) => r == Result([], Failed(code))
                case StartInstance(p) => r == Content(env, p, {}, env.enc, 0, [], w, final)
                case Continue(p) => r == if v.next == 0 then Result([], Failed(Aborted)) else ProcessProlog(env, p, w[v.next..], final)
              }
            else if v.Invalid? then r == Result([], Failed(InvalidToken))
            else
              var code := if v.NoBytes? || v.TrailingCr? then NoElements else if v.PartialChar? then PartialCharacter else UnclosedToken;
              r == Result([], if final then Failed(code) else Stopped(PrologPhase, prolog, [], w))
  {
    hide PrologTok; hide Content;
  }

  /** Where the epilog processor returns. */
  function EpilogStop(v: Verdict, prolog: Prolog, tags: seq<string>, w: string, final: bool): Outcome
  {
    if v.NoBytes? || v.TrailingCr? then Stopped(EpilogPhase, prolog, tags, "")
    else if v.Invalid? then Failed(InvalidToken)
    else if v.Tok? then Failed(JunkAfterDocElement)
    else if final then Failed(if v.PartialChar? then PartialCharacter else UnclosedToken)
    else Stopped(EpilogPhase, prolog, tags, w)
  }

  lemma {:induction false} EpilogUnfold(env: Env, prolog: Prolog, tags: seq<string>, w: string, final: bool)
    ensures var v := PrologTok(env.enc, w); var r := Epilog(env, prolog, tags, w, final);
            if v.Tok? && (v.tok == PrologS || v.tok == Pi || v.tok == Comment) then v.next > 0 && r == Epilog(env, prolog, tags, w[v.next..], final)
            else r == Result([], EpilogStop(v, prolog, tags, w, final))
  {
    hide PrologTok;
    if PrologTok(env.enc, w).Tok? { InstanceOnly(env.enc, w); }
  }

  lemma {:induction false} InstanceOnly(enc: Encoding, w: string)
    ensures var v := PrologTok(enc, w); v.Tok? && v.tok != InstanceStart ==> v.next > 0
  {
  }

  lemma {:induction false} ContentTokenAt(env: Env, prolog: Prolog, open: set<string>, enc: Encoding, base: nat, tags: seq<string>, s: string, start: nat, v: Verdict, final: bool)
    requires start <= |s| && v == ContentTok(enc, s[start..]) && v.Tok?
    ensures var next := start + v.next;
            && start < next <= |s|
            && Content(env, prolog, open, enc, base, tags, s[start..], final) ==
               if v.tok == CdataSectOpen then Cdata(env, prolog, open, enc, base, tags, s[next..], final)
               else AfterToken(env, prolog, open, enc, base, v.tok, Handle(env, prolog, open, enc, base, tags, v.tok, s[start..next]), s[next..], final)
  {
    hide *;
    var w := s[start..];
    ContentOfToken(env, prolog, open, enc, base, tags, w, final);
    assert w[v.next..] == s[start + v.next..] && w[..v.next] == s[start..start + v.next];
  }

  lemma {:induction false} TagReadyAt(enc: Encoding, s: string, start: nat, v: Verdict, token: string)
    requires start <= |s| && v == ContentTok(enc, s[start..]) && v.Tok? && enc.byteType('x') == NMSTRT
    requires start + v.next <= |s| && token == s[start..start + v.next]
    ensures StartTag(v.tok) ==> token != "" && GetAtts(enc, token, 1, GETTER_START).Atts?
  {
    hide *;
    assert s[start..][..v.next] == token;
    TagReady(enc, s[start..]);
  }

  /** A token of a CDATA section at `next`, behind what was `seen`. */
  lemma {:induction false} CdataGoesOn(env: Env, prolog: Prolog, open: set<string>, enc: Encoding, base: nat, tags: seq<string>,
                                       s: string, next: nat, final: bool, seen: seq<Event>)
    requires next <= |s| && CdataTok(enc, s[next..]).Tok?
    ensures var v := CdataTok(enc, s[next..]); var n := next + v.next;
            var all := Then(seen, Cdata(env, prolog, open, enc, base, tags, s[next..], final));
            && n <= |s|
            && all == if v.tok == CdataSectClose then Then(seen, Content(env, prolog, open, enc, base, tags, s[n..], final))
                      else var e := if v.tok == DataNewline then [CharByte('\n')] else CharBytes(s[next..n]);
                           Then(seen + e, Cdata(env, prolog, open, enc, base, tags, s[n..], final))
  {
    hide CdataTok; hide Content; hide Then;
    var v := CdataTok(enc, s[next..]);
    assert s[next..][v.next..] == s[next + v.next..] && s[next..][..v.next] == s[next..next + v.next];
    if v.tok != CdataSectClose {
      ThenThen(seen, if v.tok == DataNewline then [CharByte('\n')] else CharBytes(s[next..next + v.next]),
               Cdata(env, prolog, open, enc, base, tags, s[next + v.next..], final));
    }
  }

  /** The end of the text of an entity is inside an element. */
  lemma {:induction false} InsideReady(env: Env, tags: seq<string>, text: string)
    requires tags != []
    ensures Ready(env, env.internal, |tags|, tags, text)
  {
  }

  lemma {:induction false} ReadyFacts(env: Env, enc: Encoding, base: nat, tags: seq<string>, w: string)
    requires Ready(env, enc, base, tags, w) && TableLaws(env) && (enc == env.enc || enc == env.internal)
    ensures base <= |tags| && enc.byteType('x') == NMSTRT
    ensures var v := ContentTok(enc, w); v.Tok? && tags == [] ==> StartTag(v.tok) && v.tok != CdataSectOpen
  {
    hide ContentTok; hide AtRoot;
    if tags == [] { RootTok(enc, w); }
  }

  lemma {:induction false} StartsAtRoot(env: Env, prolog: Prolog, w: string)
    requires RoleLaws(env) && PrologTok(env.enc, w).Tok?
    requires var v := PrologTok(env.enc, w); env.role(prolog, v.tok, w[..v.next]).StartInstance?
    ensures AtRoot(env.enc, w)
  {
    hide PrologTok;
    InstanceAtStart(env.enc, w);
  }

  lemma {:induction false} EntitiesFine(env: Env, prolog: Prolog, open: set<string>, enc: Encoding, base: nat, tags: seq<string>, tok: Token, token: string)
    requires base <= |tags| && (tags == [] ==> StartTag(tok))
    ensures Handled(base, tags, tok, Handle(env, prolog, open, enc, base, tags, tok, token))
  {
    hide Content; hide Handle; hide Handled; hide Fine; hide AtRoot;
    var name := Inner(token);
    var entities := prolog.dtd.entities;
    if tok == EntityRef && name in entities && entities[name].Internal? && name !in open {
      ContentFine(env, prolog, open + {name}, env.internal, |tags|, tags, entities[name].text, true);
    }
    TokenHandled(env, prolog, open, enc, base, tags, tok, token);
  }

  lemma {:induction false} TagReady(enc: Encoding, w: string)
    requires ContentTok(enc, w).Tok? && enc.byteType('x') == NMSTRT
    ensures var v := ContentTok(enc, w); StartTag(v.tok) ==> v.tok != CdataSectOpen && w[..v.next] != "" && GetAtts(enc, w[..v.next], 1, GETTER_START).Atts?
  {
    hide ContentTok; hide GetAtts; hide MarkedPlain;
    if StartTag(ContentTok(enc, w).tok) {
      TagStart(enc, w);
      TagAttributes(enc, w);
    }
  }

  /** Only "<" starts a start tag. */
  lemma {:induction false} TagStart(enc: Encoding, w: string)
    requires var v := ContentTok(enc, w); v.Tok? && StartTag(v.tok)
    ensures w != "" && enc.byteType(w[0]) == LT
  {
    hide Scan; hide DataRun;
    if w != "" && enc.byteType(w[0]) == AMP { RefNoTag(enc, RefOpen(InContent), w, 1); }
  }

  lemma {:induction false} RefNoTag(enc: Encoding, q: State, s: string, p: nat)
    requires p <= |s| && RefPart(q) && q.ctx.InContent?
    ensures var v := Scan(enc, q, s, p); v.Tok? ==> !StartTag(v.tok)
    decreases |s| - p
  {
    hide Scan; hide Step; hide NameCase; hide NmstrtCase;
    RefUnfold(enc, q, s, p);
    if p < |s| {
      var a := StepRef(enc, q, s[p..]);
      if a.Go? { RefNoTag(enc, a.q, s, p + a.n); }
    }
  }
}
