/**
 What a reference to a general entity reports (section 4.4 of XML 1.0): the
 parse of the document goes on with the text of the entity, then behind the
 reference.  All is said of the bytes of the document.
 */
module XmlEntities {
  import opened XmlScan
  import opened XmlTok
  import opened XmlAtts
  import opened XmlValue
  import opened XmlContent
  import opened XmlChunks
  import opened XmlNesting
  import opened XmlTree
  import opened XmlPrinted
  import opened XmlRoundTrip
  import opened XmlMarkup

  /** The predefined entities, section 4.6. */
  const FIVE: map<string, char> := map["lt" := '<', "gt" := '>', "amp" := '&', "quot" := '\"', "apos" := '\'']

  function EntityReference(name: string): string { "&" + (name + ";") }

  lemma {:induction false} FiveAre(name: string)
    ensures PredefinedEntityName(name) == if name in FIVE then Some(FIVE[name]) else None
  {
  }

  /** A reference is a token of its own. */
  lemma {:induction false} NameTok(enc: Encoding, name: string, rest: string)
    requires Utf8(enc) && LegalName(enc, name)
    ensures var w := EntityReference(name) + rest; var n := |EntityReference(name)|;
            w[0] == '&' && enc.byteType('&') == AMP && Scan(enc, RefOpen(InContent), w, 1) == Tok(EntityRef, n)
    ensures Inner(EntityReference(name)) == name
  {
    hide Step; hide Scan; hide Passed; hide LegalName;
    assert enc.byteType('&') == Utf8Type('&');
    hide Utf8;
    var w := EntityReference(name) + rest;
    assert At(w, 0, "&" + (name + ";"));
    AtParts(w, 0, "&", name + ";");
    AtParts(w, 1, name, ";");
    WholeName(enc, w, RefOpen(InContent), 1, name, 0, 0);
    AtFirst(w, 1 + |name|, ";");
    ValueMoves(enc, w[1 + |name|..]);
    ScanUnfold(enc, RefName(InContent), w, 1 + |name|);
  }

  /** What follows a reference, given what it amounts to. */
  lemma {:induction false} ReferenceHere(env: Env, at: Place, prolog: Prolog, tags: seq<string>, name: string, rest: string, f: bool)
    requires Utf8(at.enc) && LegalName(at.enc, name)
    ensures var h := Expand(env, prolog, at.open, tags, name);
            In(env, at, prolog, tags, EntityReference(name) + rest, f) ==
            match h.outcome case Failed(_) => h case Stopped(_, _, tags', _) => Then(h.events, In(env, at, prolog, tags', rest, f))
  {
    hide Utf8; hide LegalName; hide Scan; hide EntityReference; hide Inner; hide Content; hide Cdata; hide Expand; hide Epilog;
    var ref := EntityReference(name);
    var w := ref + rest;
    NameTok(at.enc, name, rest);
    assert ContentTok(at.enc, w) == Tok(EntityRef, |ref|);
    assert w[..|ref|] == ref && w[|ref|..] == rest;
    ContentOfToken(env, prolog, at.open, at.enc, at.base, tags, w, f);
  }

  /** Where the text of an entity is parsed. */
  function Within(env: Env, at: Place, tags: seq<string>, name: string): Place { Place(at.open + {name}, env.internal, |tags|) }

  /** The parse of the text of an entity by itself, inside the open tags. */
  function Own(env: Env, at: Place, prolog: Prolog, tags: seq<string>, name: string, text: string): Result
  {
    In(env, Within(env, at, tags, name), prolog, tags, text, true)
  }

  lemma {:induction false} OwnKeeps(env: Env, at: Place, prolog: Prolog, tags: seq<string>, name: string, text: string)
    requires tags != []
    ensures var own := Own(env, at, prolog, tags, name, text); own.outcome.Stopped? ==> own.outcome.tags == tags
  {
    hide Content; hide AtRoot; hide Balanced;
    TextBalanced(env, prolog, at.open, tags, name, text);
  }

  /** In front of what has been parsed so far: `r`, if it fails, for good, and otherwise with the rest behind it. */
  function Onwards(env: Env, at: Place, prolog: Prolog, tags: seq<string>, e: seq<Event>, r: Result, rest: string, f: bool): Result
  {
    if r.outcome.Failed? then Then(e, r) else Then(e + r.events, In(env, at, prolog, tags, rest, f))
  }

  /** The bytes in front of a reference have been parsed to their end. */
  predicate Through(env: Env, at: Place, prolog: Prolog, tags: seq<string>, u: string, e: seq<Event>, tags': seq<string>)
  {
    In(env, at, prolog, tags, u, false) == Result(e, Stopped(ContentPhase, prolog, tags', ""))
  }

  /** Behind them the parse goes on as if it began there. */
  lemma {:induction false} GoesOn(env: Env, at: Place, prolog: Prolog, tags: seq<string>, u: string, e: seq<Event>, tags': seq<string>, t: string, f: bool)
    requires Through(env, at, prolog, tags, u, e, tags')
    ensures Same(In(env, at, prolog, tags, u + t, f), Then(e, In(env, at, prolog, tags', t, f)))
  {
    hide Content; hide Cdata; hide Epilog; hide ProcessProlog;
    ContentExtend(env, at, prolog, tags, u, t, f);
    assert "" + t == t;
  }

  /** A reference to an internal entity, anywhere inside an element, in the document or in the text of another entity: the
      parse is that of what is in front, then the parse of the text of the entity by itself, then that of what is behind. */
  lemma {:induction false} EntityReplaced(env: Env, at: Place, prolog: Prolog, tags: seq<string>, u: string, e: seq<Event>, tags': seq<string>,
                                          name: string, v: string, f: bool)
    requires Utf8(at.enc) && LegalName(at.enc, name) && Through(env, at, prolog, tags, u, e, tags') && tags' != []
    requires name !in FIVE && name in prolog.dtd.entities && prolog.dtd.entities[name].Internal? && name !in at.open
    ensures Same(In(env, at, prolog, tags, u + (EntityReference(name) + v), f),
                 Onwards(env, at, prolog, tags', e, Own(env, at, prolog, tags', name, prolog.dtd.entities[name].text), v, f))
  {
    hide In; hide Utf8; hide LegalName; hide Through; hide EntityReference; hide FIVE;
    var w := EntityReference(name) + v;
    var own := Own(env, at, prolog, tags', name, prolog.dtd.entities[name].text);
    GoesOn(env, at, prolog, tags, u, e, tags', w, f);
    ReferenceHere(env, at, prolog, tags', name, v, f);
    FiveAre(name);
    IsOwn(env, at, prolog, tags', name);
    OwnKeeps(env, at, prolog, tags', name, prolog.dtd.entities[name].text);
    if own.outcome.Stopped? {
      ThenThen(e, own.events, In(env, at, prolog, tags', v, f));
    }
  }

  lemma {:induction false} IsOwn(env: Env, at: Place, prolog: Prolog, tags: seq<string>, name: string)
    requires PredefinedEntityName(name) == None && name in prolog.dtd.entities && prolog.dtd.entities[name].Internal? && name !in at.open
    ensures Expand(env, prolog, at.open, tags, name) == Own(env, at, prolog, tags, name, prolog.dtd.entities[name].text)
  {
    hide Content; hide PredefinedEntityName;
  }

  /** All other references: one of the five is its character; what is not declared is an error if all declarations have been
      read, or the document stands alone, and else skipped, as an external entity is; an unparsed entity and one that is being
      expanded are errors. */
  lemma {:induction false} OtherReferences(env: Env, at: Place, prolog: Prolog, tags: seq<string>, u: string, e: seq<Event>, tags': seq<string>,
                                           name: string, v: string, f: bool)
    requires Utf8(at.enc) && LegalName(at.enc, name) && Through(env, at, prolog, tags, u, e, tags') && tags' != []
    ensures var r := In(env, at, prolog, tags, u + (EntityReference(name) + v), f); var behind := In(env, at, prolog, tags', v, f);
            var dtd := prolog.dtd;
            && (name in FIVE ==> Same(r, Then(e + [CharByte(FIVE[name])], behind)))
            && (name !in FIVE && name !in dtd.entities ==>
                  if dtd.complete || dtd.standalone then r.outcome == Failed(UndefinedEntity) else Same(r, Then(e, behind)))
            && (name !in FIVE && name in dtd.entities && name in at.open ==> r.outcome == Failed(RecursiveEntityRef))
            && (name !in FIVE && name in dtd.entities && name !in at.open && dtd.entities[name] == Unparsed ==> r.outcome == Failed(BinaryEntityRef))
            && (name !in FIVE && name in dtd.entities && name !in at.open && dtd.entities[name] == External ==> Same(r, Then(e, behind)))
  {
    hide In; hide Utf8; hide LegalName; hide Through; hide EntityReference; hide FIVE; hide Content; hide PredefinedEntityName;
    var w := EntityReference(name) + v;
    GoesOn(env, at, prolog, tags, u, e, tags', w, f);
    ReferenceHere(env, at, prolog, tags', name, v, f);
    FiveAre(name);
    var behind := In(env, at, prolog, tags', v, f);
    if name in FIVE { ThenThen(e, [CharByte(FIVE[name])], behind); }
    ThenThen(e, [], behind);
    assert e + [] == e;
  }

  /** An entity whose text refers to it, behind whatever, cannot be referred to (section 4.1, No Recursion). */
  lemma {:induction false} NoRecursion(env: Env, at: Place, prolog: Prolog, tags: seq<string>, u: string, e: seq<Event>, tags': seq<string>,
                                       name: string, v: string, f: bool, a: string, e': seq<Event>, tags'': seq<string>, b: string)
    requires Utf8(at.enc) && Utf8(env.internal) && LegalName(at.enc, name) && LegalName(env.internal, name)
    requires Through(env, at, prolog, tags, u, e, tags') && tags' != [] && tags'' != []
    requires name !in FIVE && name in prolog.dtd.entities && name !in at.open
    requires prolog.dtd.entities[name] == Internal(a + (EntityReference(name) + b))
    requires Through(env, Within(env, at, tags', name), prolog, tags', a, e', tags'')
    ensures In(env, at, prolog, tags, u + (EntityReference(name) + v), f).outcome == Failed(RecursiveEntityRef)
  {
    hide In; hide Utf8; hide LegalName; hide Through; hide EntityReference; hide FIVE;
    EntityReplaced(env, at, prolog, tags, u, e, tags', name, v, f);
    OtherReferences(env, Within(env, at, tags', name), prolog, tags', a, e', tags'', name, b, true);
  }

  // ---- Text without markup ----

  /** Text in which nothing is markup, as it stands in an entity. */
  lemma {:induction false} PlainOwn(env: Env, at: Place, prolog: Prolog, tags: seq<string>, name: string, text: string)
    requires Utf8(env.internal) && PlainText(env.internal, text) && tags != []
    ensures Own(env, at, prolog, tags, name, text) == Result(CharBytes(LineEnds(text)), Stopped(ContentPhase, prolog, tags, ""))
  {
    hide Content; hide Utf8; hide PlainText; hide LineEnds;
    var inside := Within(env, at, tags, name);
    PlainParsed(env, inside, prolog, tags, text, "", true);
    assert text + "" == text;
    NothingLeft(env.internal);
    EndsIn(env, inside, prolog, tags, "");
    assert CharBytes(LineEnds(text)) + [] == CharBytes(LineEnds(text));
  }

  lemma {:induction false} NothingLeft(enc: Encoding)
    ensures ContentTok(enc, "").NoBytes?
  {
    hide Scan; hide DataRun;
  }

  /** A reference to an entity without markup is reported as its text. */
  lemma {:induction false} PlainEntity(env: Env, at: Place, prolog: Prolog, tags: seq<string>, u: string, e: seq<Event>, tags': seq<string>,
                                       name: string, text: string, v: string, f: bool)
    requires Utf8(at.enc) && Utf8(env.internal) && LegalName(at.enc, name) && Through(env, at, prolog, tags, u, e, tags') && tags' != []
    requires name !in FIVE && name in prolog.dtd.entities && prolog.dtd.entities[name] == Internal(text) && name !in at.open && PlainText(env.internal, text)
    ensures Same(In(env, at, prolog, tags, u + (EntityReference(name) + v), f),
                 Then(e + CharBytes(LineEnds(text)), In(env, at, prolog, tags', v, f)))
  {
    hide In; hide Utf8; hide LegalName; hide Through; hide EntityReference; hide FIVE; hide LineEnds; hide PlainText;
    EntityReplaced(env, at, prolog, tags, u, e, tags', name, v, f);
    PlainOwn(env, at, prolog, tags', name, text);
  }
}
