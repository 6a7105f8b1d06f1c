/**
 What is left of the namespace scopes when storeAtts (libjabber/xmlparse.c)
 gives up in the middle of an empty element: the declarations it had handled
 are on a local list, and the call returns.
 */
module XmlAbandoned {
  import opened XmlScan
  import opened XmlTok
  import opened XmlAtts
  import opened XmlValue
  import opened XmlTree
  import opened XmlPrinted
  import opened XmlPool
  import opened XmlRoundTrip
  import XmlBindings

  /** The attributes storeAtts has handled when its loop ends, with or without an error. */
  function Handled(internal: Encoding, dtd: Dtd, open: set<string>, enc: Encoding, tag: string, defaults: seq<DefaultAtt>,
                   list: seq<Attribute>, atts: seq<(string, string)>): seq<(string, string)>
    decreases |list|
  {
    if list == [] then atts
    else
      var name := NameAt(enc, tag, list[0].name);
      var raw := Slice(tag, list[0].valuePtr, list[0].valueEnd);
      if Has(atts, name) then atts
      else
        match if list[0].normalized then Value(raw) else StoreValue(internal, dtd, open, enc, IsCdata(defaults, name), raw)
        case ValueError(_) => atts
        case Value(text) => Handled(internal, dtd, open, enc, tag, defaults, list[1..], atts + [(name, text)])
  }

  /** All of them are, if there is no error. */
  lemma {:induction false} HandledAll(internal: Encoding, dtd: Dtd, open: set<string>, enc: Encoding, tag: string, defaults: seq<DefaultAtt>,
                                      list: seq<Attribute>, atts: seq<(string, string)>)
    ensures match StoreEach(internal, dtd, open, enc, tag, defaults, list, atts)
            case Stored(l) => l == Handled(internal, dtd, open, enc, tag, defaults, list, atts)
            case AttsError(_) => |Handled(internal, dtd, open, enc, tag, defaults, list, atts)| < |atts| + |list|
    decreases |list|
  {
    hide StoreValue; hide NameAt; hide Slice; hide IsCdata; hide Has;
    if list != [] {
      var name := NameAt(enc, tag, list[0].name);
      var raw := Slice(tag, list[0].valuePtr, list[0].valueEnd);
      var v := if list[0].normalized then Value(raw) else StoreValue(internal, dtd, open, enc, IsCdata(defaults, name), raw);
      if !Has(atts, name) && v.Value? { HandledAll(internal, dtd, open, enc, tag, defaults, list[1..], atts + [(name, v.text)]); }
    }
  }

  function HandledOf(internal: Encoding, dtd: Dtd, open: set<string>, enc: Encoding, tag: string, element: string): seq<(string, string)>
    requires GetAtts(enc, tag, 1, GETTER_START).Atts?
  {
    Handled(internal, dtd, open, enc, tag, Defaults(dtd, element), GetAtts(enc, tag, 1, GETTER_START).list, [])
  }

  /** The parser when storeAtts has returned an error for an empty element: the list of the element is gone. */
  function Abandoned(s: XmlBindings.Store, atts: seq<(string, string)>): XmlBindings.Store
  {
    XmlBindings.Open(s, atts).(scope := s.scope)
  }

  /** After an error in storeAtts every binding node is still on one of the lists if and only if none of the attributes
      handled before the error declares a prefix. */
  lemma {:induction false} AbandonedConserves(s: XmlBindings.Store, internal: Encoding, dtd: Dtd, open: set<string>, enc: Encoding, tag: string, element: string)
    requires XmlBindings.Conserved(s) && GetAtts(enc, tag, 1, GETTER_START).Atts?
    requires StoreAtts(internal, dtd, open, enc, tag, element).AttsError?
    ensures var atts := HandledOf(internal, dtd, open, enc, tag, element);
            && |atts| < |GetAtts(enc, tag, 1, GETTER_START).list|
            && (XmlBindings.Conserved(Abandoned(s, atts)) <==> forall i :: 0 <= i < |atts| ==> XmlBindings.Declares(atts[i].0) == None)
  {
    hide StoreEach; hide GetAtts; hide Handled;
    HandledAll(internal, dtd, open, enc, tag, Defaults(dtd, element), GetAtts(enc, tag, 1, GETTER_START).list, []);
    XmlBindings.AbandonedList(s, HandledOf(internal, dtd, open, enc, tag, element));
  }

  // Tags with a repeated attribute

  /** The loop of storeAtts over printed attributes that are all different. */
  lemma {:induction false} FrontStored(internal: Encoding, dtd: Dtd, open: set<string>, enc: Encoding, tag: string,
                                       list: seq<Attribute>, atts: seq<(string, string)>, n: nat, p: nat, done: seq<(string, string)>)
    requires n <= |atts| && Utf8(enc) && LegalAtts(enc, atts) && Unique(done + atts[..n])
    requires At(tag, p, PrintAtts(atts)) && Records(enc, tag, list, atts, p)
    ensures |list| == |atts|
    ensures StoreEach(internal, dtd, open, enc, tag, [], list, done) == StoreEach(internal, dtd, open, enc, tag, [], list[n..], done + BlankAtts(atts[..n]))
    ensures Handled(internal, dtd, open, enc, tag, [], list, done) == Handled(internal, dtd, open, enc, tag, [], list[n..], done + BlankAtts(atts[..n]))
    ensures n < |atts| ==> NameAt(enc, tag, list[n].name) == atts[n].0
    decreases n
  {
    hide *;
    SameLength(enc, tag, list, atts, p);
    if n == 0 {
      FrontNone(done, list, atts);
      if atts != [] { FirstName(enc, tag, list, atts, p); }
    } else {
      FirstName(enc, tag, list, atts, p);
      RecordsRest(enc, tag, list, atts, p);
      FrontFirst(enc, atts, n, done);
      PrintAttsFirst(atts);
      AtParts(tag, p, PrintAtt(atts[0]), PrintAtts(atts[1..]));
      AttParts(tag, p, atts[0]);
      RecordAt(atts[0], p);
      ValueStored(internal, dtd, open, enc, tag, list[0], atts[0].1, true);
      IsTyped(Blanks(atts[0].1));
      NoType(atts[0].0);
      var first := (atts[0].0, Blanks(atts[0].1));
      EachTurn(internal, dtd, open, enc, tag, [], list, first, done);
      HandledTurn(internal, dtd, open, enc, tag, list, first, done);
      FrontStored(internal, dtd, open, enc, tag, list[1..], atts[1..], n - 1, p + |PrintAtt(atts[0])|, done + [first]);
      assert list[1..][n - 1..] == list[n..];
    }
  }

  lemma {:induction false} NoType(name: string)
    ensures IsCdata([], name)
  {
  }

  lemma {:induction false} FrontNone(done: seq<(string, string)>, list: seq<Attribute>, atts: seq<(string, string)>)
    ensures done + BlankAtts(atts[..0]) == done && list[0..] == list
  {
  }

  lemma {:induction false} SameLength(enc: Encoding, tag: string, list: seq<Attribute>, atts: seq<(string, string)>, p: nat)
    requires Records(enc, tag, list, atts, p)
    ensures |list| == |atts|
  {
  }

  lemma {:induction false} FirstName(enc: Encoding, tag: string, list: seq<Attribute>, atts: seq<(string, string)>, p: nat)
    requires atts != [] && Utf8(enc) && LegalAtts(enc, atts) && At(tag, p, PrintAtts(atts)) && Records(enc, tag, list, atts, p)
    ensures list != [] && NameAt(enc, tag, list[0].name) == atts[0].0
  {
    hide NameAt; hide PrintAtts; hide PrintAtt; hide Records; hide LegalName; hide Utf8; hide LegalText;
    RecordsRest(enc, tag, list, atts, p);
    PrintAttsFirst(atts);
    AtParts(tag, p, PrintAtt(atts[0]), PrintAtts(atts[1..]));
    AttNameFound(enc, tag, p, atts[0]);
  }

  lemma {:induction false} FrontFirst(enc: Encoding, atts: seq<(string, string)>, n: nat, done: seq<(string, string)>)
    requires 0 < n <= |atts| && LegalAtts(enc, atts) && Unique(done + atts[..n])
    ensures LegalName(enc, atts[0].0) && LegalText(enc, atts[0].1) && LegalAtts(enc, atts[1..]) && !Has(done, atts[0].0)
    ensures var first := (atts[0].0, Blanks(atts[0].1));
            && Unique(done + [first] + atts[1..][..n - 1])
            && done + [first] + BlankAtts(atts[1..][..n - 1]) == done + BlankAtts(atts[..n])
  {
    hide LegalName; hide LegalText; hide Has; hide Unique; hide Blanks; hide BlankAtts;
    var front := atts[..n];
    assert front[0] == atts[0] && front[1..] == atts[1..][..n - 1];
    FirstAtt(enc, Blanks(front[0].1), front, done);
    BlankAttsFirst(front);
  }

  lemma {:induction false} HandledTurn(internal: Encoding, dtd: Dtd, open: set<string>, enc: Encoding, tag: string,
                                       list: seq<Attribute>, att: (string, string), done: seq<(string, string)>)
    requires list != [] && NameAt(enc, tag, list[0].name) == att.0 && !Has(done, att.0)
    requires var raw := Slice(tag, list[0].valuePtr, list[0].valueEnd);
             (if list[0].normalized then Value(raw) else StoreValue(internal, dtd, open, enc, true, raw)) == Value(att.1)
    ensures Handled(internal, dtd, open, enc, tag, [], list, done) == Handled(internal, dtd, open, enc, tag, [], list[1..], done + [att])
  {
    hide StoreValue; hide NameAt; hide Slice;
  }

  lemma {:induction false} RepeatStops(internal: Encoding, dtd: Dtd, open: set<string>, enc: Encoding, tag: string, list: seq<Attribute>, done: seq<(string, string)>)
    requires list != [] && Has(done, NameAt(enc, tag, list[0].name))
    ensures StoreEach(internal, dtd, open, enc, tag, [], list, done) == AttsError(DuplicateAttribute)
    ensures Handled(internal, dtd, open, enc, tag, [], list, done) == done
  {
    hide StoreValue; hide NameAt; hide Slice; hide Has;
  }

  lemma {:induction false} BlankHas(atts: seq<(string, string)>, name: string)
    requires Has(atts, name)
    ensures Has(BlankAtts(atts), name)
  {
    hide Blanks;
    var i :| 0 <= i < |atts| && atts[i].0 == name;
    assert BlankAtts(atts)[i].0 == name;
  }

  /** A tag whose attributes are as they are printed, but for the n-th, which repeats a name: the tokenizer takes it, storeAtts
      refuses it, and those in front have been handled. */
  lemma {:induction false} RepeatedAttribute(internal: Encoding, dtd: Dtd, open: set<string>, enc: Encoding, name: string, atts: seq<(string, string)>, n: nat)
    requires Utf8(enc) && LegalName(enc, name) && LegalAtts(enc, atts) && dtd.elementAtts == map[]
    requires n < |atts| && Unique(atts[..n]) && Has(atts[..n], atts[n].0)
    ensures var tag := OpenTag(name, atts, true);
            && ContentTok(enc, tag) == Tok(EmptyElementWithAtts, |tag|) && GetAtts(enc, tag, 1, GETTER_START).Atts?
            && StoreAtts(internal, dtd, open, enc, tag, name) == AttsError(DuplicateAttribute)
            && HandledOf(internal, dtd, open, enc, tag, name) == BlankAtts(atts[..n])
  {
    hide Utf8; hide LegalName; hide LegalText; hide NameAt; hide PrintAtts; hide Unique; hide GetAtts; hide MarkedPlain; hide ContentTok;
    hide StoreEach; hide Positions; hide Scan; hide Passed; hide OpenTag; hide LegalAtts; hide Handled; hide BlankAtts; hide Has;
    var tag := OpenTag(name, atts, true);
    OpenTagParts(name, atts, true);
    TagTokIs(enc, name, atts, true, "");
    assert tag + "" == tag && tag[..|tag|] == tag;
    assert enc.byteType('x') == NMSTRT && enc.byteType('<') == LT by { TableFacts(enc); }
    OpenTagScan(enc, tag, name, atts, true);
    TagAttributes(enc, tag);
    var list := GetAtts(enc, tag, 1, GETTER_START).list;
    assert [] + atts[..n] == atts[..n] && [] + BlankAtts(atts[..n]) == BlankAtts(atts[..n]);
    FrontStored(internal, dtd, open, enc, tag, list, atts, n, 1 + |name|, []);
    BlankHas(atts[..n], atts[n].0);
    RepeatStops(internal, dtd, open, enc, tag, list[n..], BlankAtts(atts[..n]));
  }

  /** A node is lost by the tag <a xmlns='u' xmlns='u'/>: the one for its default namespace is on no list afterwards. */
  lemma {:induction false} LostNode(internal: Encoding, dtd: Dtd, enc: Encoding)
    requires Utf8(enc) && dtd.elementAtts == map[]
    ensures var tag := "<a xmlns='u' xmlns='u'/>";
            && ContentTok(enc, tag) == Tok(EmptyElementWithAtts, |tag|) && GetAtts(enc, tag, 1, GETTER_START).Atts?
            && StoreAtts(internal, dtd, {}, enc, tag, "a") == AttsError(DuplicateAttribute)
            && HandledOf(internal, dtd, {}, enc, tag, "a") == [("xmlns", "u")]
    ensures var s := Abandoned(XmlBindings.Created(), [("xmlns", "u")]);
            s.size == 2 && 1 !in XmlBindings.Ids(s.scope) && 1 !in s.free && !XmlBindings.Conserved(s)
  {
    var att := ("xmlns", "u");
    var atts := [att, att];
    assert OpenTag("a", atts, true) == "<a xmlns='u' xmlns='u'/>" by { TwoAtts(); }
    assert LegalName(enc, "a") && LegalName(enc, "xmlns") && LegalText(enc, "u") by {
      LettersLegal(enc, "a");
      LettersLegal(enc, "xmlns");
      LetterText(enc);
    }
    assert atts[..1] == [att] && BlankAtts([att]) == [att] by { assert Blanks("u") == "u"; }
    assert Has([att], "xmlns") by { assert [att][0].0 == "xmlns"; }
    RepeatedAttribute(internal, dtd, {}, enc, "a", atts, 1);
    NodeLost();
  }

  lemma {:induction false} TwoAtts()
    ensures OpenTag("a", [("xmlns", "u"), ("xmlns", "u")], true) == "<a xmlns='u' xmlns='u'/>"
  {
    var att := ("xmlns", "u");
    EscapeU();
    assert PrintAtt(att) == " xmlns='u'";
    PrintAttsFirst([att, att]);
    PrintAttsFirst([att]);
    assert [att, att][1..] == [att] && [att][1..] == [];
    NoAtts();
  }

  lemma {:induction false} EscapeU()
    ensures Escape("u") == "u"
  {
  }

  lemma {:induction false} LetterText(enc: Encoding)
    requires Utf8(enc)
    ensures LegalText(enc, "u")
  {
    assert enc.byteType('u') == Utf8Type('u');
    assert LegalText(enc, "");
  }

  lemma {:induction false} NodeLost()
    ensures var s := Abandoned(XmlBindings.Created(), [("xmlns", "u")]);
            s.size == 2 && 1 !in XmlBindings.Ids(s.scope) && 1 !in s.free && !XmlBindings.Conserved(s)
  {
    var c := XmlBindings.Created();
    var atts := [("xmlns", "u")];
    assert XmlBindings.Declares("xmlns") == Some(XmlBindings.DefaultPrefix) by { XmlBindings.DeclaresIff("xmlns", XmlBindings.DefaultPrefix); }
    assert atts[..0] == [];
    var s := Abandoned(c, atts);
    assert XmlBindings.Ids(c.scope) == multiset{0};
    assert (XmlBindings.Ids(s.scope) + multiset(s.free))[1] == 0;
  }
}
