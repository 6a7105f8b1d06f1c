/**
 The processors of libjabber/xmlparse.c as functions of the bytes at hand:
 prologProcessor, contentProcessor with doContent, cdataSectionProcessor with
 doCdataSection, and epilogProcessor.

 The handlers are those of libjabber/expat.c (start, end, character data); what
 they are called with is the list of events.  Character data is listed byte by
 byte, so that two lists are equal when the elements and the concatenated text
 are.  The role automaton of the prolog and what it does to the DTD is a
 parameter here; XmlProlog has the automaton of the program.
 */
module XmlContent {
  import opened XmlScan
  import opened XmlTok
  import opened XmlAtts
  import opened XmlValue
  import XmlRole

  datatype Event = StartElement(name: string, atts: seq<(string, string)>) | EndElement(name: string) | CharByte(c: char)

  function CharBytes(s: string): (e: seq<Event>)
    ensures |e| == |s| && forall i :: 0 <= i < |s| ==> e[i] == CharByte(s[i])
  {
    seq(|s|, i requires 0 <= i < |s| => CharByte(s[i]))
  }

  /** The handlers of libjabber/xmlrole.c, but for `error`: no parser gets to another token with that one. */
  datatype PrologHandler =
    | Prolog0 | Prolog1 | Prolog2
    | Doctype0 | Doctype1 | Doctype2 | Doctype3 | Doctype4 | Doctype5 | Subset
    | Entity0 | Entity1 | Entity2 | Entity3 | Entity4 | Entity5 | Entity6 | Entity7 | Entity8 | Entity9
    | Notation0 | Notation1 | Notation2 | Notation3 | Notation4
    | Attlist0 | Attlist1 | Attlist2 | Attlist3 | Attlist4 | Attlist5 | Attlist6 | Attlist7 | Attlist8 | Attlist9
    | InElement(handler: XmlRole.Handler) | DeclEnd

  /** What prologProcessor remembers between the tokens of a declaration, and of an external DTD. */
  datatype Declared = Declared(entity: Option<string>, elementType: string, attribute: string, isCdata: bool, hadExternalDoctype: bool)

  /** The state of the prolog: the role automaton with the connectors of open groups, the DTD, and the declaration at hand. */
  datatype Prolog = Prolog(at: PrologHandler, open: seq<XmlRole.Connector>, dtd: Dtd, decl: Declared)

  /** XmlPrologStateInit, in a new parser. */
  function Initial(dtd: Dtd): Prolog { Prolog(Prolog0, [], dtd, Declared(None, "", "", false, false)) }

  datatype RoleAction = Continue(prolog: Prolog) | StartInstance(prolog: Prolog) | Refuse(code: Error)

  /** The two encodings of a parser, and XmlTokenRole with the actions of prologProcessor; XmlProlog has those of the program. */
  datatype Env = Env(enc: Encoding, internal: Encoding, role: (Prolog, Token, string) -> RoleAction)

  /** What the handlers of libjabber/xmlrole.c have in common: white space is not looked at and changes the state at most once,
      and the start of the root element, and nothing else, is the start of the instance, or an error. */
  ghost predicate RoleLaws(env: Env)
  {
    && (forall p: Prolog, w: string, w': string :: SpaceInert(env, p, w, w'))
    && (forall p: Prolog, w: string :: !env.role(p, InstanceStart, w).Continue?)
    && (forall p: Prolog, tok: Token, w: string :: env.role(p, tok, w).StartInstance? ==> tok == InstanceStart)
  }

  predicate SpaceInert(env: Env, p: Prolog, w: string, w': string)
  {
    var a := env.role(p, PrologS, w);
    && a == env.role(p, PrologS, w') && !a.StartInstance?
    && (a.Continue? ==> env.role(a.prolog, PrologS, w') == a)
  }

  datatype Phase = PrologPhase | ContentPhase | CdataPhase | EpilogPhase

  /** What survives between two calls: the processor, the DTD, the open tags, and the bytes not consumed. */
  datatype Outcome = Failed(code: Error) | Stopped(phase: Phase, prolog: Prolog, tags: seq<string>, rest: string)

  datatype Result = Result(events: seq<Event>, outcome: Outcome)

  function Then(events: seq<Event>, r: Result): Result
  {
    Result(events + r.events, r.outcome)
  }

  /** The open tags after the end of an entity or of the document. */
  function AtEnd(base: nat, prolog: Prolog, tags: seq<string>): Outcome
  {
    if base == 0 then Failed(NoElements)
    else if |tags| != base then Failed(AsyncEntity)
    else Stopped(ContentPhase, prolog, tags, "")
  }

  function Suspend(final: bool, code: Error, phase: Phase, prolog: Prolog, tags: seq<string>, w: string): Result
  {
    Result([], if final then Failed(code) else Stopped(phase, prolog, tags, w))
  }

  function Epilog(env: Env, prolog: Prolog, tags: seq<string>, w: string, final: bool): Result
    decreases |w|
  {
    match PrologTok(env.enc, w)
    case NoBytes | TrailingCr => Result([], Stopped(EpilogPhase, prolog, tags, ""))
    case Invalid(_) => Result([], Failed(InvalidToken))
    case PartialChar => Suspend(final, PartialCharacter, EpilogPhase, prolog, tags, w)
    case Tok(tok, next) =>
      if tok == PrologS || tok == Pi || tok == Comment then Epilog(env, prolog, tags, w[next..], final)
      else Result([], Failed(JunkAfterDocElement))
    case _ => Suspend(final, UnclosedToken, EpilogPhase, prolog, tags, w)
  }

  /** How many entities can still be opened. */
  ghost function Unopened(prolog: Prolog, open: set<string>): nat { |prolog.dtd.entities.Keys - open| }

  lemma {:induction false} OneOpened(prolog: Prolog, open: set<string>, name: string)
    requires name in prolog.dtd.entities && name !in open
    ensures Unopened(prolog, open + {name}) < Unopened(prolog, open)
  {
    OpenSmaller(prolog.dtd.entities.Keys, open, name);
  }

  /** The switch of doContent for every token but the start of a CDATA section: what is reported, and the open tags
      afterwards.  An entity's text is run on its own, above the tags that are open. */
  function Handle(env: Env, prolog: Prolog, open: set<string>, enc: Encoding, base: nat, tags: seq<string>, tok: Token, token: string): Result
    decreases |prolog.dtd.entities.Keys - open|, 0, 1
  {
    match tok
    case StartTagWithAtts | StartTagNoAtts => Tag(env, prolog, open, enc, tags, token, false)
    case EmptyElementWithAtts | EmptyElementNoAtts => Tag(env, prolog, open, enc, tags, token, true)
    case EndTag =>
      var name := NameAt(enc, token, 2);
      if |tags| == base || tags == [] then Result([], Failed(AsyncEntity))
      else if name != tags[|tags| - 1] then Result([], Failed(TagMismatch))
      else Result([EndElement(name)], GoingOn(prolog, tags[..|tags| - 1]))
    case EntityRef => Expand(env, prolog, open, tags, Inner(token))
    case CharRef =>
      var n := CharRefNumber(token);
      if n < 0 then Result([], Failed(BadCharRef)) else Result(CharBytes(Utf8Encode(n)), GoingOn(prolog, tags))
    case XmlDecl => Result([], Failed(MisplacedXmlPi))
    case DataNewline => Result([CharByte('\n')], GoingOn(prolog, tags))
    case DataChars => Result(CharBytes(token), GoingOn(prolog, tags))
    case _ => Result([], GoingOn(prolog, tags))
  }

  function GoingOn(prolog: Prolog, tags: seq<string>): Outcome { Stopped(ContentPhase, prolog, tags, "") }

  function Tag(env: Env, prolog: Prolog, open: set<string>, enc: Encoding, tags: seq<string>, token: string, empty: bool): Result
  {
    var name := NameAt(enc, token, 1);
    match StoreAtts(env.internal, prolog.dtd, open, enc, token, name)
    case AttsError(code) => Result([], Failed(code))
    case Stored(atts) =>
      if empty then Result([StartElement(name, atts), EndElement(name)], GoingOn(prolog, tags))
      else Result([StartElement(name, atts)], GoingOn(prolog, tags + [name]))
  }

  /** What a general entity reference amounts to: a character, nothing, an error, or the text of the entity. */
  function Expand(env: Env, prolog: Prolog, open: set<string>, tags: seq<string>, name: string): Result
    decreases |prolog.dtd.entities.Keys - open|, 0, 0
  {
    var dtd := prolog.dtd;
    if PredefinedEntityName(name).Some? then Result([CharByte(PredefinedEntityName(name).value)], GoingOn(prolog, tags))
    else if name !in dtd.entities then
      Result([], if dtd.complete || dtd.standalone then Failed(UndefinedEntity) else GoingOn(prolog, tags))
    else if name in open then Result([], Failed(RecursiveEntityRef))
    else
      match dtd.entities[name]
      case Unparsed => Result([], Failed(BinaryEntityRef))
      case External => Result([], GoingOn(prolog, tags))
      case Internal(text) =>
        OpenSmaller(dtd.entities.Keys, open, name);
        Content(env, prolog, open + {name}, env.internal, |tags|, tags, text, true)
  }

  /** A tag that can close the last open element. */
  predicate Closes(tok: Token) { tok == EndTag || tok == EmptyElementWithAtts || tok == EmptyElementNoAtts }

  /** doContent: `base` is its startTagLevel, `final` says that it was given no place for the next pointer. */
  function Content(env: Env, prolog: Prolog, open: set<string>, enc: Encoding, base: nat, tags: seq<string>, w: string, final: bool): Result
    decreases |prolog.dtd.entities.Keys - open|, 1, |w|
  {
    match ContentTok(enc, w)
    case NoBytes => Result([], if final then AtEnd(base, prolog, tags) else Stopped(ContentPhase, prolog, tags, w))
    case TrailingCr =>
      if final then Result([CharByte('\n')], AtEnd(base, prolog, tags)) else Result([], Stopped(ContentPhase, prolog, tags, w))
    case TrailingRsqb =>
      if final then Result(CharBytes(w), AtEnd(base, prolog, tags)) else Result([], Stopped(ContentPhase, prolog, tags, w))
    case Invalid(_) => Result([], Failed(InvalidToken))
    case Partial => Suspend(final, UnclosedToken, ContentPhase, prolog, tags, w)
    case PartialChar => Suspend(final, PartialCharacter, ContentPhase, prolog, tags, w)
    case Tok(tok, next) =>
      if tok == CdataSectOpen then Cdata(env, prolog, open, enc, base, tags, w[next..], final)
      else
        var h := Handle(env, prolog, open, enc, base, tags, tok, w[..next]);
        match h.outcome
        case Failed(_) => h
        case Stopped(_, _, tags', _) =>
          Then(h.events, if tags' == [] && Closes(tok) then Epilog(env, prolog, tags', w[next..], final)
                         else Content(env, prolog, open, enc, base, tags', w[next..], final))
  }

  /** doCdataSection, and back to the content when the section is closed. */
  function Cdata(env: Env, prolog: Prolog, open: set<string>, enc: Encoding, base: nat, tags: seq<string>, w: string, final: bool): Result
    decreases |prolog.dtd.entities.Keys - open|, 1, |w|
  {
    match CdataTok(enc, w)
    case Invalid(_) => Result([], Failed(InvalidToken))
    case PartialChar => Suspend(final, PartialCharacter, CdataPhase, prolog, tags, w)
    case Tok(tok, next) =>
      if tok == CdataSectClose then Content(env, prolog, open, enc, base, tags, w[next..], final)
      else Then(if tok == DataNewline then [CharByte('\n')] else CharBytes(w[..next]),
                Cdata(env, prolog, open, enc, base, tags, w[next..], final))
    case _ => Suspend(final, UnclosedCdataSection, CdataPhase, prolog, tags, w)
  }

  function ProcessProlog(env: Env, prolog: Prolog, w: string, final: bool): Result
    decreases |w|
  {
    match PrologTok(env.enc, w)
    case Invalid(_) => Result([], Failed(InvalidToken))
    case NoBytes | TrailingCr => Suspend(final, NoElements, PrologPhase, prolog, [], w)
    case PartialChar => Suspend(final, PartialCharacter, PrologPhase, prolog, [], w)
    case Tok(tok, next) =>
      (match env.role(prolog, tok, w[..next])
       case Refuse(code) => Result([], Failed(code))
       case StartInstance(prolog') => Content(env, prolog', {}, env.enc, 0, [], w, final)
       case Continue(prolog') => if next == 0 then Result([], Failed(Aborted)) else ProcessProlog(env, prolog', w[next..], final))
    case _ => Suspend(final, UnclosedToken, PrologPhase, prolog, [], w)
  }

  /** One call of the current processor. */
  function Process(env: Env, phase: Phase, prolog: Prolog, tags: seq<string>, w: string, final: bool): Result
  {
    match phase
    case PrologPhase => ProcessProlog(env, prolog, w, final)
    case ContentPhase => Content(env, prolog, {}, env.enc, 0, tags, w, final)
    case CdataPhase => Cdata(env, prolog, {}, env.enc, 0, tags, w, final)
    case EpilogPhase => Epilog(env, prolog, tags, w, final)
  }

  /** What follows a token that was handled. */
  function AfterToken(env: Env, prolog: Prolog, open: set<string>, enc: Encoding, base: nat, tok: Token, h: Result, rest: string, final: bool): Result
  {
    match h.outcome
    case Failed(_) => h
    case Stopped(_, _, tags, _) =>
      Then(h.events, if tags == [] && Closes(tok) then Epilog(env, prolog, tags, rest, final)
                     else Content(env, prolog, open, enc, base, tags, rest, final))
  }

  lemma {:induction false} ContentOfToken(env: Env, prolog: Prolog, open: set<string>, enc: Encoding, base: nat, tags: seq<string>, w: string, final: bool)
    requires ContentTok(enc, w).Tok?
    ensures var v := ContentTok(enc, w);
            Content(env, prolog, open, enc, base, tags, w, final) ==
            if v.tok == CdataSectOpen then Cdata(env, prolog, open, enc, base, tags, w[v.next..], final)
            else AfterToken(env, prolog, open, enc, base, v.tok, Handle(env, prolog, open, enc, base, tags, v.tok, w[..v.next]), w[v.next..], final)
  {
    hide ContentTok; hide Cdata; hide Handle; hide Epilog;
  }
}
