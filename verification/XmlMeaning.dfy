/**
 What a document means: its elements, text, references, sections, comments and
 instructions are written down, and the parser reports the events section by
 section of XML 1.0, entities expanded to any depth.
 */
module XmlMeaning {
  import opened XmlScan
  import opened XmlTok
  import opened XmlValue
  import opened XmlContent
  import opened XmlChunks
  import opened XmlNesting
  import opened XmlTree
  import opened XmlPrinted
  import opened XmlRoundTrip
  import opened XmlMarkup
  import opened XmlCharRefs
  import opened XmlEntities
  import opened XmlLiterals
  import opened XmlTags

  /** What content is written with: text as it stands or escaped, numbered characters, names of entities, CDATA sections, comments, processing
      instructions and elements. */
  datatype Item =
    | Plain(text: string)
    | Passage(text: string)
    | Numeral(hex: bool, digits: string, n: nat)
    | Mention(name: string)
    | Verbatim(text: string)
    | Note(text: string)
    | Command(target: string, text: string)
    | Node(tag: StartTag, kids: seq<Item>, space: string)

  predicate IsText(i: Item) { i.Plain? || i.Passage? }

  function Written(i: Item): string
    decreases i, 0
  {
    match i
    case Plain(text) => text
    case Passage(text) => Escape(text)
    case Numeral(hex, digits, _) => Reference(hex, digits)
    case Mention(name) => EntityReference(name)
    case Verbatim(text) => Section(text)
    case Note(text) => Remark(text)
    case Command(target, text) => Instruction(target, text)
    case Node(tag, kids, space) => StartText(tag) + (if tag.empty then "" else AllWritten(kids) + EndText(tag.name, space))
  }

  function AllWritten(l: seq<Item>): string
    decreases l, 0
  {
    if l == [] then "" else Written(l[0]) + AllWritten(l[1..])
  }

  /** In order, under a table. */
  ghost predicate Right(enc: Encoding, i: Item)
    decreases i, 0
  {
    match i
    case Plain(text) => PlainText(enc, text)
    case Passage(text) => LegalText(enc, text)
    case Numeral(hex, digits, n) => digits != "" && Spells(Base(hex), digits, n)
    case Mention(name) => LegalName(enc, name)
    case Verbatim(text) => LegalText(enc, text) && NoClose(text)
    case Note(text) => LegalText(enc, text) && NoDashes(text)
    case Command(target, text) => LegalTarget(enc, target) && LegalText(enc, text) && NoEnd(text)
    case Node(tag, kids, space) => LegalStart(enc, tag) && Whites(space) && AllRight(enc, kids) && (tag.empty ==> kids == [])
  }

  /** And no text behind text. */
  ghost predicate AllRight(enc: Encoding, l: seq<Item>)
    decreases l, 0
  {
    l == [] || (Right(enc, l[0]) && (|l| > 1 && IsText(l[0]) ==> !IsText(l[1])) && AllRight(enc, l[1..]))
  }

  /** What is reported, or what is wrong. */
  datatype Reading = Fine(events: seq<Event>) | Wrong(code: Error)

  function Both(a: Reading, b: Reading): Reading
  {
    if a.Wrong? then a else if b.Wrong? then b else Fine(a.events + b.events)
  }

  /** The texts of the declared entities, as they are written. */
  type Texts = map<string, seq<Item>>

  ghost predicate Backed(internal: Encoding, dtd: Dtd, texts: Texts)
  {
    forall name :: name in dtd.entities && dtd.entities[name].Internal? ==> HasText(internal, dtd, texts, name)
  }

  ghost predicate HasText(internal: Encoding, dtd: Dtd, texts: Texts, name: string)
    requires name in dtd.entities && dtd.entities[name].Internal?
  {
    name in texts && dtd.entities[name].text == AllWritten(texts[name]) && AllRight(internal, texts[name])
  }

  /** The events of content, sections 2.4 to 2.7, 2.11, 3.1 and 4.4 of XML 1.0; `open` are the entities around it. */
  function Means(internal: Encoding, dtd: Dtd, texts: Texts, open: set<string>, i: Item): Reading
    decreases |dtd.entities.Keys - open|, i, 0
  {
    match i
    case Plain(text) => Fine(CharBytes(LineEnds(text)))
    case Passage(text) => Fine(CharBytes(LineEnds(text)))
    case Numeral(_, _, n) => if XmlChar(n) then Fine(CharBytes(Utf8Encode(n))) else Wrong(BadCharRef)
    case Mention(name) =>
      if name in FIVE then Fine([CharByte(FIVE[name])])
      else if name !in dtd.entities then (if dtd.complete || dtd.standalone then Wrong(UndefinedEntity) else Fine([]))
      else if name in open then Wrong(RecursiveEntityRef)
      else if dtd.entities[name].Unparsed? then Wrong(BinaryEntityRef)
      else if dtd.entities[name].External? || name !in texts then Fine([])
      else
        OpenSmaller(dtd.entities.Keys, open, name);
        AllMean(internal, dtd, texts, open + {name}, texts[name])
    case Verbatim(text) => Fine(CharBytes(LineEnds(text)))
    case Note(_) => Fine([])
    case Command(_, _) => Fine([])
    case Node(tag, kids, _) =>
      match StartMeans(internal, dtd, open, tag)
      case AttsError(code) => Wrong(code)
      case Stored(atts) => Both(Both(Fine([StartElement(tag.name, atts)]), AllMean(internal, dtd, texts, open, kids)), Fine([EndElement(tag.name)]))
  }

  function AllMean(internal: Encoding, dtd: Dtd, texts: Texts, open: set<string>, l: seq<Item>): Reading
    decreases |dtd.entities.Keys - open|, l, 0
  {
    if l == [] then Fine([]) else Both(Means(internal, dtd, texts, open, l[0]), AllMean(internal, dtd, texts, open, l[1..]))
  }

  /** The parse `r` is that reading, and then `behind`. */
  predicate Reads(r: Result, m: Reading, behind: Result)
  {
    match m case Wrong(code) => r.outcome == Failed(code) case Fine(e) => Same(r, Then(e, behind))
  }

  lemma {:induction false} ReadsBoth(r: Result, a: Reading, b: Reading, middle: Result, behind: Result)
    requires Reads(r, a, middle) && (a.Fine? ==> Reads(middle, b, behind))
    ensures Reads(r, Both(a, b), behind)
  {
    if a.Fine? && b.Fine? {
      SameThen(a.events, middle, Then(b.events, behind));
      ThenThen(a.events, b.events, behind);
    }
  }

  lemma {:induction false} ReadsNothing(r: Result)
    ensures Reads(r, Fine([]), r)
  {
    NothingThen(r);
  }

  // ---- Entities ----

  /** The end of the text of an entity. */
  lemma {:induction false} TextOver(env: Env, at: Place, prolog: Prolog, tags: seq<string>)
    requires tags != [] && at.base == |tags|
    ensures In(env, at, prolog, tags, "", true) == Result([], Stopped(ContentPhase, prolog, tags, ""))
  {
    hide ContentTok;
    NothingLeft(at.enc);
    EndsIn(env, at, prolog, tags, "");
  }

  lemma {:induction false} OwnReads(env: Env, at: Place, prolog: Prolog, tags: seq<string>, name: string, text: string, m: Reading, rest: string, f: bool)
    requires Utf8(at.enc) && LegalName(at.enc, name) && tags != []
    requires PredefinedEntityName(name) == None && name in prolog.dtd.entities && prolog.dtd.entities[name] == Internal(text) && name !in at.open
    requires Reads(Own(env, at, prolog, tags, name, text), m, Result([], Stopped(ContentPhase, prolog, tags, "")))
    ensures Reads(In(env, at, prolog, tags, EntityReference(name) + rest, f), m, In(env, at, prolog, tags, rest, f))
  {
    hide In; hide Utf8; hide LegalName; hide PredefinedEntityName; hide EntityReference; hide Own;
    ReferenceHere(env, at, prolog, tags, name, rest, f);
    IsOwn(env, at, prolog, tags, name);
    if m.Fine? { assert m.events + [] == m.events; }
  }

  /** A reference to an entity, given how its text reads. */
  lemma {:induction false} MentionReads(env: Env, at: Place, prolog: Prolog, tags: seq<string>, texts: Texts, name: string, rest: string, f: bool)
    requires Utf8(at.enc) && LegalName(at.enc, name) && tags != [] && Backed(env.internal, prolog.dtd, texts)
    requires name !in FIVE && name in prolog.dtd.entities && name !in at.open && prolog.dtd.entities[name].Internal? ==>
               name in texts && Reads(Own(env, at, prolog, tags, name, AllWritten(texts[name])), AllMean(env.internal, prolog.dtd, texts, at.open + {name}, texts[name]),
                                      Result([], Stopped(ContentPhase, prolog, tags, "")))
    ensures Reads(In(env, at, prolog, tags, EntityReference(name) + rest, f), Means(env.internal, prolog.dtd, texts, at.open, Mention(name)), In(env, at, prolog, tags, rest, f))
  {
    hide In; hide Utf8; hide LegalName; hide PredefinedEntityName; hide EntityReference; hide FIVE; hide AllWritten; hide AllRight; hide Own; hide AllMean;
    var dtd, behind := prolog.dtd, In(env, at, prolog, tags, rest, f);
    FiveAre(name);
    if name !in FIVE && name in dtd.entities && name !in at.open && dtd.entities[name].Internal? {
      assert HasText(env.internal, dtd, texts, name);
      OwnReads(env, at, prolog, tags, name, AllWritten(texts[name]), AllMean(env.internal, dtd, texts, at.open + {name}, texts[name]), rest, f);
    } else {
      ReferenceHere(env, at, prolog, tags, name, rest, f);
      OtherExpands(env, at, prolog, tags, name);
      ReadsNothing(behind);
    }
  }

  lemma {:induction false} OtherExpands(env: Env, at: Place, prolog: Prolog, tags: seq<string>, name: string)
    ensures var h := Expand(env, prolog, at.open, tags, name); var dtd := prolog.dtd;
            && (PredefinedEntityName(name).Some? ==> h == Result([CharByte(PredefinedEntityName(name).value)], GoingOn(prolog, tags)))
            && (PredefinedEntityName(name) == None && name !in dtd.entities ==>
                  h == Result([], if dtd.complete || dtd.standalone then Failed(UndefinedEntity) else GoingOn(prolog, tags)))
            && (PredefinedEntityName(name) == None && name in dtd.entities && name in at.open ==> h == Result([], Failed(RecursiveEntityRef)))
            && (PredefinedEntityName(name) == None && name in dtd.entities && name !in at.open && dtd.entities[name] == Unparsed ==> h == Result([], Failed(BinaryEntityRef)))
            && (PredefinedEntityName(name) == None && name in dtd.entities && name !in at.open && dtd.entities[name] == External ==> h == Result([], GoingOn(prolog, tags)))
  {
    hide Content; hide PredefinedEntityName;
  }

  // ---- Content ----

  /** Behind text there is markup, or the end. */
  predicate Meets(l: seq<Item>, rest: string, f: bool) { l != [] && IsText(l[|l| - 1]) ==> Edge(rest, f) }

  lemma {:induction false} BehindText(enc: Encoding, l: seq<Item>, rest: string, f: bool)
    requires AllRight(enc, l) && l != [] && IsText(l[0]) && Meets(l, rest, f)
    ensures Edge(AllWritten(l[1..]) + rest, f)
  {
    hide Written; hide Right;
    if |l| > 1 {
      assert l[1..][0] == l[1];
      MarkupStarts(l[1]);
      assert (AllWritten(l[1..]) + rest)[0] == Written(l[1])[0];
    } else {
      assert AllWritten(l[1..]) + rest == rest;
    }
  }

  lemma {:induction false} MarkupStarts(i: Item)
    requires !IsText(i)
    ensures Written(i) != "" && (Written(i)[0] == '<' || Written(i)[0] == '&')
  {
    hide AllWritten; hide AttsText;
  }

  /** Items without items in them. */
  lemma {:induction false} SimpleReads(env: Env, at: Place, prolog: Prolog, tags: seq<string>, texts: Texts, i: Item, rest: string, f: bool)
    requires Utf8(at.enc) && Right(at.enc, i) && !i.Node? && !i.Mention? && (IsText(i) ==> Edge(rest, f))
    ensures Reads(In(env, at, prolog, tags, Written(i) + rest, f), Means(env.internal, prolog.dtd, texts, at.open, i), In(env, at, prolog, tags, rest, f))
  {
    hide In; hide Utf8; hide LegalText; hide Spells; hide NoClose; hide NoDashes; hide NoEnd; hide LegalTarget; hide XmlChar; hide Escape; hide Section; hide Remark; hide Instruction;
    hide Reference; hide LineEnds; hide Utf8Encode;
    var behind := In(env, at, prolog, tags, rest, f);
    ReadsNothing(behind);
    match i
    case Plain(text) => PlainParsed(env, at, prolog, tags, text, rest, f);
    case Passage(text) => TextParsed(env, at, prolog, tags, text, rest, f);
    case Numeral(hex, digits, n) => NumberParsed(env, at, prolog, tags, hex, digits, n, rest, f);
    case Verbatim(text) => SectionParsed(env, at, prolog, tags, text, rest, f);
    case Note(text) => RemarkParsed(env, at, prolog, tags, text, rest, f);
    case Command(target, text) => InstructionParsed(env, at, prolog, tags, target, text, rest, f);
  }

  /** An element, given how its content reads. */
  lemma {:induction false} NodeReads(env: Env, at: Place, prolog: Prolog, tags: seq<string>, texts: Texts, i: Item, rest: string, f: bool)
    requires Utf8(at.enc) && Right(at.enc, i) && i.Node? && at.base <= |tags| && Whole(env.internal, prolog.dtd)
    requires !i.tag.empty ==>
               Reads(In(env, at, prolog, tags + [i.tag.name], AllWritten(i.kids) + (EndText(i.tag.name, i.space) + rest), f), AllMean(env.internal, prolog.dtd, texts, at.open, i.kids),
                     In(env, at, prolog, tags + [i.tag.name], EndText(i.tag.name, i.space) + rest, f))
    ensures Reads(In(env, at, prolog, tags, Written(i) + rest, f), Means(env.internal, prolog.dtd, texts, at.open, i), Onward(env, at, prolog, tags, rest, f))
  {
    hide In; hide Utf8; hide LegalStart; hide StartText; hide EndText; hide AllWritten; hide AllMean; hide AllRight; hide StartMeans; hide Onward; hide Whole; hide Whites;
    var tag, kids := i.tag, i.kids;
    var name := tag.name;
    var m := StartMeans(env.internal, prolog.dtd, at.open, tag);
    var onward := Onward(env, at, prolog, tags, rest, f);
    if tag.empty {
      assert StartText(tag) + "" == StartText(tag);
      StartParsed(env, at, prolog, tags, tag, rest, f);
      if m.Stored? { EmptyMeans(env.internal, prolog.dtd, texts, at.open, i, m.atts); }
    } else {
      var behind := EndText(name, i.space) + rest;
      var inside := AllWritten(kids) + behind;
      assert Written(i) + rest == StartText(tag) + inside;
      StartParsed(env, at, prolog, tags, tag, inside, f);
      StartNamed(at.enc, tag);
      EndParsed(env, at, prolog, tags, name, i.space, rest, f);
      if m.Stored? {
        var start, end := StartElement(name, m.atts), EndElement(name);
        var all := In(env, at, prolog, tags, Written(i) + rest, f);
        var middle := AllMean(env.internal, prolog.dtd, texts, at.open, kids);
        ReadsBoth(all, Fine([start]), middle, In(env, at, prolog, tags + [name], inside, f), In(env, at, prolog, tags + [name], behind, f));
        ReadsBoth(all, Both(Fine([start]), middle), Fine([end]), In(env, at, prolog, tags + [name], behind, f), onward);
      }
    }
  }

  lemma {:induction false} StartNamed(enc: Encoding, t: StartTag)
    requires LegalStart(enc, t)
    ensures LegalName(enc, t.name)
  {
  }

  lemma {:induction false} EmptyMeans(internal: Encoding, dtd: Dtd, texts: Texts, open: set<string>, i: Item, atts: seq<(string, string)>)
    requires i.Node? && i.kids == [] && StartMeans(internal, dtd, open, i.tag) == Stored(atts)
    ensures Means(internal, dtd, texts, open, i) == Fine([StartElement(i.tag.name, atts), EndElement(i.tag.name)])
  {
    hide StartMeans;
    var s := StartElement(i.tag.name, atts);
    assert [s] + [] + [EndElement(i.tag.name)] == [s, EndElement(i.tag.name)];
  }

  lemma {:induction false} KidsRight(enc: Encoding, i: Item)
    requires Right(enc, i) && i.Node?
    ensures AllRight(enc, i.kids)
  {
  }

  lemma {:induction false} FirstRight(enc: Encoding, l: seq<Item>)
    requires AllRight(enc, l) && l != []
    ensures Right(enc, l[0]) && AllRight(enc, l[1..])
  {
  }

  lemma {:induction false} InsideOnward(env: Env, at: Place, prolog: Prolog, tags: seq<string>, rest: string, f: bool)
    requires tags != []
    ensures Onward(env, at, prolog, tags, rest, f) == In(env, at, prolog, tags, rest, f)
  {
  }

  /** One item inside an element. */
  lemma {:induction false} ItemReads(env: Env, at: Place, prolog: Prolog, tags: seq<string>, texts: Texts, i: Item, rest: string, f: bool)
    requires Utf8(at.enc) && Utf8(env.internal) && Backed(env.internal, prolog.dtd, texts) && Whole(env.internal, prolog.dtd)
    requires Right(at.enc, i) && tags != [] && at.base <= |tags| && (IsText(i) ==> Edge(rest, f))
    ensures Reads(In(env, at, prolog, tags, Written(i) + rest, f), Means(env.internal, prolog.dtd, texts, at.open, i), In(env, at, prolog, tags, rest, f))
    decreases Unopened(prolog, at.open), i, 0
  {
    hide *;
    if i.Node? {
      KidsRight(at.enc, i);
      if !i.tag.empty {
        EndEdge(i.tag.name, i.space, rest, f);
        EdgeMeets(i.kids, EndText(i.tag.name, i.space) + rest, f);
        ItemsRead(env, at, prolog, tags + [i.tag.name], texts, i.kids, EndText(i.tag.name, i.space) + rest, f);
      }
      NodeReads(env, at, prolog, tags, texts, i, rest, f);
      InsideOnward(env, at, prolog, tags, rest, f);
    } else if i.Mention? {
      MentionIs(at.enc, i);
      var name := i.name;
      if name !in FIVE && name in prolog.dtd.entities && name !in at.open && prolog.dtd.entities[name].Internal? {
        TextIs(env.internal, prolog.dtd, texts, name);
        OneOpened(prolog, at.open, name);
        var inside := Within(env, at, tags, name);
        InsideIs(env, at, tags, name);
        EdgeAtEnd();
        EdgeMeets(texts[name], "", true);
        ItemsRead(env, inside, prolog, tags, texts, texts[name], "", true);
        TextOver(env, inside, prolog, tags);
        OwnIs(env, at, prolog, tags, name, AllWritten(texts[name]));
      }
      MentionReads(env, at, prolog, tags, texts, name, rest, f);
    } else {
      SimpleReads(env, at, prolog, tags, texts, i, rest, f);
    }
  }

  lemma {:induction false} EndEdge(name: string, space: string, rest: string, f: bool)
    ensures Edge(EndText(name, space) + rest, f)
  {
  }

  lemma {:induction false} EdgeMeets(l: seq<Item>, rest: string, f: bool)
    requires Edge(rest, f)
    ensures Meets(l, rest, f)
  {
  }

  lemma {:induction false} MeetsBehind(l: seq<Item>, rest: string, f: bool)
    requires Meets(l, rest, f) && l != []
    ensures Meets(l[1..], rest, f)
  {
  }

  lemma {:induction false} EdgeAtEnd()
    ensures Edge("", true)
  {
  }

  lemma {:induction false} MentionIs(enc: Encoding, i: Item)
    requires Right(enc, i) && i.Mention?
    ensures LegalName(enc, i.name) && Written(i) == EntityReference(i.name) && i == Mention(i.name)
  {
  }

  lemma {:induction false} TextIs(internal: Encoding, dtd: Dtd, texts: Texts, name: string)
    requires Backed(internal, dtd, texts) && name in dtd.entities && dtd.entities[name].Internal?
    ensures name in texts && AllRight(internal, texts[name])
  {
    hide AllRight; hide AllWritten;
    assert HasText(internal, dtd, texts, name);
  }

  lemma {:induction false} InsideIs(env: Env, at: Place, tags: seq<string>, name: string)
    ensures Within(env, at, tags, name) == Place(at.open + {name}, env.internal, |tags|)
  {
  }

  lemma {:induction false} OwnIs(env: Env, at: Place, prolog: Prolog, tags: seq<string>, name: string, text: string)
    ensures Own(env, at, prolog, tags, name, text) == In(env, Within(env, at, tags, name), prolog, tags, text + "", true)
  {
    hide In;
    assert text + "" == text;
  }

  /** Any content of an element, in the document or in the text of an entity. */
  lemma {:induction false} ItemsRead(env: Env, at: Place, prolog: Prolog, tags: seq<string>, texts: Texts, l: seq<Item>, rest: string, f: bool)
    requires Utf8(at.enc) && Utf8(env.internal) && Backed(env.internal, prolog.dtd, texts) && Whole(env.internal, prolog.dtd)
    requires AllRight(at.enc, l) && tags != [] && at.base <= |tags| && Meets(l, rest, f)
    ensures Reads(In(env, at, prolog, tags, AllWritten(l) + rest, f), AllMean(env.internal, prolog.dtd, texts, at.open, l), In(env, at, prolog, tags, rest, f))
    decreases Unopened(prolog, at.open), l, 1
  {
    hide *;
    var here := In(env, at, prolog, tags, rest, f);
    ItemsUnfold(env.internal, prolog.dtd, texts, at.open, l);
    if l == [] {
      assert "" + rest == rest;
      ReadsNothing(here);
    } else {
      FirstRight(at.enc, l);
      var more := AllWritten(l[1..]) + rest;
      assert AllWritten(l) + rest == Written(l[0]) + more;
      MeetsBehind(l, rest, f);
      if IsText(l[0]) { BehindText(at.enc, l, rest, f); }
      ItemReads(env, at, prolog, tags, texts, l[0], more, f);
      ItemsRead(env, at, prolog, tags, texts, l[1..], rest, f);
      ReadsBoth(In(env, at, prolog, tags, AllWritten(l) + rest, f), Means(env.internal, prolog.dtd, texts, at.open, l[0]), AllMean(env.internal, prolog.dtd, texts, at.open, l[1..]),
                In(env, at, prolog, tags, more, f), here);
    }
  }

  lemma {:induction false} ItemsUnfold(internal: Encoding, dtd: Dtd, texts: Texts, open: set<string>, l: seq<Item>)
    ensures AllMean(internal, dtd, texts, open, l) == if l == [] then Fine([]) else Both(Means(internal, dtd, texts, open, l[0]), AllMean(internal, dtd, texts, open, l[1..]))
    ensures AllWritten(l) == if l == [] then "" else Written(l[0]) + AllWritten(l[1..])
  {
    hide Means; hide Written; hide Both;
  }

  /** The root element, and what may stand behind it. */
  lemma {:induction false} RootReads(env: Env, prolog: Prolog, texts: Texts, i: Item, rest: string)
    requires Utf8(env.enc) && Utf8(env.internal) && Backed(env.internal, prolog.dtd, texts) && Whole(env.internal, prolog.dtd) && Right(env.enc, i) && i.Node?
    requires Epilog(env, prolog, [], rest, true) == Result([], Stopped(EpilogPhase, prolog, [], ""))
    ensures var r := In(env, Outermost(env), prolog, [], Written(i) + rest, true);
            match Means(env.internal, prolog.dtd, texts, {}, i)
            case Wrong(code) => r.outcome == Failed(code)
            case Fine(e) => r == Result(e, Stopped(EpilogPhase, prolog, [], ""))
  {
    hide *;
    var at := Outermost(env);
    AtTop(env);
    KidsRight(env.enc, i);
    if !i.tag.empty {
      EndEdge(i.tag.name, i.space, rest, true);
      EdgeMeets(i.kids, EndText(i.tag.name, i.space) + rest, true);
      ItemsRead(env, at, prolog, [] + [i.tag.name], texts, i.kids, EndText(i.tag.name, i.space) + rest, true);
    }
    NodeReads(env, at, prolog, [], texts, i, rest, true);
    OnwardAtTop(env, at, prolog, rest);
    Ended(In(env, at, prolog, [], Written(i) + rest, true), Means(env.internal, prolog.dtd, texts, {}, i), prolog);
  }

  lemma {:induction false} AtTop(env: Env)
    ensures Outermost(env) == Place({}, env.enc, 0)
  {
  }

  lemma {:induction false} OnwardAtTop(env: Env, at: Place, prolog: Prolog, rest: string)
    ensures Onward(env, at, prolog, [], rest, true) == Epilog(env, prolog, [], rest, true)
  {
    hide Epilog; hide In;
  }

  lemma {:induction false} Ended(r: Result, m: Reading, prolog: Prolog)
    requires Reads(r, m, Result([], Stopped(EpilogPhase, prolog, [], "")))
    ensures match m case Wrong(code) => r.outcome == Failed(code) case Fine(e) => r == Result(e, Stopped(EpilogPhase, prolog, [], ""))
  {
    if m.Fine? { assert m.events + [] == m.events; }
  }
}
