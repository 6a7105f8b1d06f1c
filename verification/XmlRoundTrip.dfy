/**
 The print/parse round trip: parsing what xmlnode2str prints for a tree gives
 that tree back (libjabber/xmlnode.c:128-204, libjabber/str.c:244-310,
 libjabber/expat.c:22-89).
 */
module XmlRoundTrip {
  import opened XmlScan
  import opened XmlTok
  import opened XmlAtts
  import opened XmlValue
  import opened XmlContent
  import opened XmlChunks
  import opened XmlTree
  import opened XmlPrinted
  import opened XmlPool
  import opened XmlNormal

  // ---- Names ----

  /** A byte that ends a name. */
  predicate EndsName(c: char) { c == '=' || c == '>' || c == '/' || Blank(c) }

  lemma {:induction false} NameEndTurn(enc: Encoding, s: string, p: nat, part: string)
    requires Utf8(enc) && At(s, p, part) && part != ""
    ensures NameCase(enc, part).Take? ==> NameEnd(enc, s, p) == NameEnd(enc, s, p + NameCase(enc, part).n)
    ensures NmstrtCase(enc, part).Take? ==> NameEnd(enc, s, p) == NameEnd(enc, s, p + NmstrtCase(enc, part).n)
  {
    AtFirst(s, p, part);
  }

  lemma {:induction false} NameStops(enc: Encoding, s: string, p: nat)
    requires Utf8(enc) && p < |s| && EndsName(s[p])
    ensures NameEnd(enc, s, p) == p
  {
    if s[p] != '\r' { assert enc.byteType(s[p]) == Utf8Type(s[p]); }
  }

  lemma {:induction false} NameEndRest(enc: Encoding, s: string, p: nat, part: string)
    requires Utf8(enc) && At(s, p, part) && NameRest(enc, part) && p + |part| < |s| && EndsName(s[p + |part|])
    ensures NameEnd(enc, s, p) == p + |part|
    decreases |part|
  {
    hide NameEnd; hide NameCase; hide Utf8; hide EndsName; hide At;
    if part == "" {
      NameStops(enc, s, p);
    } else {
      NameEndTurn(enc, s, p, part);
      var n := NameCase(enc, part).n;
      assert part == part[..n] + part[n..];
      AtParts(s, p, part[..n], part[n..]);
      NameEndRest(enc, s, p + n, part[n..]);
    }
  }

  lemma {:induction false} NameFound(enc: Encoding, s: string, p: nat, part: string)
    requires Utf8(enc) && At(s, p, part) && LegalName(enc, part) && p + |part| < |s| && EndsName(s[p + |part|])
    ensures NameAt(enc, s, p) == part
  {
    hide NameEnd; hide NmstrtCase; hide Utf8; hide NameRest;
    NameEndTurn(enc, s, p, part);
    var n := NmstrtCase(enc, part).n;
    assert part == part[..n] + part[n..];
    AtParts(s, p, part[..n], part[n..]);
    NameEndRest(enc, s, p + n, part[n..]);
  }

  // ---- Attributes ----

  lemma {:induction false} PlainTurn(enc: Encoding, s: string, from: nat, p: nat, end: nat, c: string)
    requires Utf8(enc) && p <= end <= |s| && At(s, p, c) && c != "" && p + |c| <= end && Plain(enc, s, from, p, end)
    ensures c[0] != '&' && c[0] != '\t' && c[0] != '\n' && c[0] != '\r'
    ensures LegalChar(enc, c) == |c| ==> Plain(enc, s, from, p + |c|, end)
  {
    AtFirst(s, p, c);
    assert enc.byteType(s[p]) == Utf8Type(s[p]);
  }

  lemma {:induction false} UnescapedStep(enc: Encoding, v: string, n: nat)
    requires Utf8(enc) && v != "" && n == LegalChar(enc, v) > 0 && !Special(v[0]) && (Blank(v[0]) ==> v[0] == ' ')
    requires Escape(v[n..]) == v[n..] && Blanks(v[n..]) == v[n..]
    ensures Escape(v) == v && Blanks(v) == v
  {
    hide LegalChar; hide Utf8; hide Escape; hide EscapeChar;
    OrdinaryChar(enc, v);
    assert v == v[..n] + v[n..];
    if v[0] == ' ' {
      BlankChar(enc, v);
    } else {
      LegalCharAlone(enc, v);
      NoBlankInside(enc, v[..n]);
      BlanksBehind(v[..n], v[n..]);
    }
  }

  lemma {:induction false} SpecialNotPlain(enc: Encoding, s: string, from: nat, p: nat, v: string)
    requires Utf8(enc) && v != "" && Special(v[0]) && At(s, p, Escape(v))
    ensures p + |Escape(v)| <= |s| && !Plain(enc, s, from, p, p + |Escape(v)|)
  {
    hide Plain; hide Utf8; hide Escape; hide EscapeChar;
    EscapeFirst(v);
    EntityNames(v[0]);
    AtParts(s, p, EscapeChar(v[0]), Escape(v[1..]));
    if Plain(enc, s, from, p, p + |Escape(v)|) { PlainTurn(enc, s, from, p, p + |Escape(v)|, EscapeChar(v[0])); }
  }

  /** The first character of such a value, and the rest of it. */
  lemma {:induction false} PlainFront(enc: Encoding, s: string, from: nat, p: nat, v: string)
    requires Utf8(enc) && LegalText(enc, v) && v != "" && !Special(v[0])
    requires At(s, p, Escape(v)) && Plain(enc, s, from, p, p + |Escape(v)|)
    ensures var n := LegalChar(enc, v);
            && 0 < n <= |v| && LegalText(enc, v[n..]) && At(s, p + n, Escape(v[n..])) && |Escape(v)| == n + |Escape(v[n..])|
            && Plain(enc, s, from, p + n, p + |Escape(v)|) && (Blank(v[0]) ==> v[0] == ' ')
  {
    hide Plain; hide LegalChar; hide Utf8; hide Escape; hide EscapeChar; hide At; hide Blanks; hide Special;
    var n := LegalChar(enc, v);
    assert LegalText(enc, v[n..]);
    hide LegalText;
    OrdinaryChar(enc, v);
    LegalCharAlone(enc, v);
    AtParts(s, p, v[..n], Escape(v[n..]));
    AtEnds(s, p, Escape(v));
    PlainTurn(enc, s, from, p, p + |Escape(v)|, v[..n]);
  }

  /** A value that was taken without normalization was printed without escapes, and has no white space but spaces. */
  lemma {:induction false} PlainUnescaped(enc: Encoding, s: string, from: nat, p: nat, v: string)
    requires Utf8(enc) && LegalText(enc, v) && At(s, p, Escape(v)) && Plain(enc, s, from, p, p + |Escape(v)|)
    ensures Escape(v) == v && Blanks(v) == v
    decreases |v|
  {
    hide *;
    if v == "" {
      EscapePlain("");
      NoBlanks();
    } else if Special(v[0]) {
      SpecialNotPlain(enc, s, from, p, v);
    } else {
      var n := LegalChar(enc, v);
      PlainFront(enc, s, from, p, v);
      PlainUnescaped(enc, s, from, p + n, v[n..]);
      UnescapedStep(enc, v, n);
    }
  }

  lemma {:induction false} NoBlanks()
    ensures Blanks("") == ""
  {
  }

  lemma {:induction false} FormedBehind(enc: Encoding, v: string, k: nat, p: nat)
    requires k + p <= |v| && WellFormed(enc, v[k..], p)
    ensures WellFormed(enc, v, k + p)
    decreases |v| - p
  {
    if k + p < |v| {
      var n := CharLength(enc.byteType(v[k + p]));
      if k + p + n <= |v| { FormedBehind(enc, v, k, p + n); }
      forall i | k + p < i < k + p + n && i < |v| ensures v[i] as int >= 0x80 { assert v[k..][i - k] == v[i]; }
    }
  }

  lemma {:induction false} LegalFormed(enc: Encoding, v: string)
    requires Utf8(enc) && LegalText(enc, v)
    ensures WellFormed(enc, v, 0)
    decreases |v|
  {
    hide Utf8;
    if v != "" {
      var n := LegalChar(enc, v);
      LegalFormed(enc, v[n..]);
      FormedBehind(enc, v, n, 0);
      assert n == CharLength(enc.byteType(v[0])) && forall i :: 0 < i < n ==> v[i] as int >= 0x80;
    }
  }

  /** A value that is taken without normalization is what its words give. */
  lemma {:induction false} PlainTyped(enc: Encoding, tag: string, p: nat, v: string, isCdata: bool)
    requires Utf8(enc) && LegalText(enc, v) && At(tag, p, Escape(v)) && Plain(enc, tag, p, p, p + |Escape(v)|)
    ensures Escape(v) == v == Typed(isCdata, Blanks(v))
  {
    hide *;
    PlainUnescaped(enc, tag, p, p, v);
    IsAt(tag, p, v);
    if isCdata {
      IsTyped(v);
    } else {
      PlainMoved(enc, tag, p, p, p + |v|, v, 0, p);
      LegalFormed(enc, v);
      WellFormedStored(enc, v, 0, 0);
      var d := Dtd(map[], map[], true, true);
      PlainStored(enc, d, {}, enc, v);
      StoredRestored(enc, d, {}, enc, false, v);
    }
  }

  lemma {:induction false} IsAt(tag: string, p: nat, v: string)
    requires At(tag, p, v)
    ensures p + |v| <= |tag| && tag[p..p + |v|] == v
  {
  }

  lemma {:induction false} IsTyped(v: string)
    ensures Typed(true, v) == v
  {
  }

  /** storeAttributeValue on an escaped value. */
  lemma {:induction false} StoredRestored(internal: Encoding, dtd: Dtd, open: set<string>, enc: Encoding, isCdata: bool, v: string)
    requires Utf8(enc) && LegalText(enc, v)
    ensures StoreValue(internal, dtd, open, enc, isCdata, Escape(v)) == Value(Typed(isCdata, Blanks(v)))
  {
    hide AppendValue; hide LegalText; hide Utf8; hide Escape; hide Put; hide Typed;
    ValueRestored(internal, dtd, open, enc, isCdata, v, "");
    PutTyped(isCdata, Blanks(v));
  }

  /** The value the parser stores for a printed attribute. */
  lemma {:induction false} ValueStored(internal: Encoding, dtd: Dtd, open: set<string>, enc: Encoding, tag: string, a: Attribute, v: string, isCdata: bool)
    requires Utf8(enc) && LegalText(enc, v) && At(tag, a.valuePtr, Escape(v)) && a.valueEnd == a.valuePtr + |Escape(v)|
    requires MarkedPlain(enc, tag, a)
    ensures var raw := Slice(tag, a.valuePtr, a.valueEnd);
            (if a.normalized then Value(raw) else StoreValue(internal, dtd, open, enc, isCdata, raw)) == Value(Typed(isCdata, Blanks(v)))
  {
    hide Plain; hide StoreValue; hide LegalText; hide Utf8; hide Escape; hide Typed;
    var raw := Slice(tag, a.valuePtr, a.valueEnd);
    assert raw == Escape(v);
    if a.normalized {
      PlainTyped(enc, tag, a.valuePtr, v, isCdata);
    } else {
      StoredRestored(internal, dtd, open, enc, isCdata, v);
    }
  }

  /** The records of getAtts for printed attributes. */
  predicate Records(enc: Encoding, tag: string, list: seq<Attribute>, atts: seq<(string, string)>, p: nat)
  {
    SamePositions(list, Positions(atts, p)) && forall i :: 0 <= i < |list| ==> MarkedPlain(enc, tag, list[i])
  }

  lemma {:induction false} RecordsRest(enc: Encoding, tag: string, list: seq<Attribute>, atts: seq<(string, string)>, p: nat)
    requires atts != [] && Records(enc, tag, list, atts, p)
    ensures list != [] && Records(enc, tag, list[1..], atts[1..], p + |PrintAtt(atts[0])|)
    ensures var a := PositionOf(atts[0], p);
            list[0].name == a.name && list[0].valuePtr == a.valuePtr && list[0].valueEnd == a.valueEnd && MarkedPlain(enc, tag, list[0])
  {
    hide MarkedPlain; hide PrintAtt;
    var all := Positions(atts, p);
    assert all[0] == PositionOf(atts[0], p) && all[1..] == Positions(atts[1..], p + |PrintAtt(atts[0])|);
  }

  lemma {:induction false} HasNot(done: seq<(string, string)>, att: (string, string), more: seq<(string, string)>)
    requires Unique(done + [att] + more)
    ensures !Has(done, att.0)
  {
    var all := done + [att] + more;
    assert all[|done|] == att;
    assert forall i :: 0 <= i < |done| ==> all[i] == done[i];
  }

  /** The attributes the parser reports for printed ones. */
  function BlankAtts(atts: seq<(string, string)>): (r: seq<(string, string)>)
    ensures |r| == |atts|
  {
    seq(|atts|, i requires 0 <= i < |atts| => (atts[i].0, Blanks(atts[i].1)))
  }

  /** The same, with the value each attribute has for its declared type. */
  function NormalAtts(defaults: seq<DefaultAtt>, atts: seq<(string, string)>): (r: seq<(string, string)>)
    ensures |r| == |atts|
  {
    seq(|atts|, i requires 0 <= i < |atts| => NormalAtt(defaults, atts[i]))
  }

  function NormalAtt(defaults: seq<DefaultAtt>, att: (string, string)): (string, string)
  {
    (att.0, Typed(IsCdata(defaults, att.0), Blanks(att.1)))
  }

  lemma {:induction false} UndeclaredAtts(atts: seq<(string, string)>)
    ensures NormalAtts([], atts) == BlankAtts(atts) && AddDefaults([], BlankAtts(atts)) == BlankAtts(atts)
  {
    hide Blanks;
  }

  /** The attributes of a printed tag of an element: those specified, and the declared values of others. */
  function Supplied(dtd: Dtd, element: string, atts: seq<(string, string)>): seq<(string, string)>
  {
    AddDefaults(Defaults(dtd, element), NormalAtts(Defaults(dtd, element), atts))
  }

  lemma {:induction false} BlankAttsAt(atts: seq<(string, string)>)
    ensures forall i :: 0 <= i < |atts| ==> BlankAtts(atts)[i] == (atts[i].0, Blanks(atts[i].1))
  {
  }

  lemma {:induction false} BlankAttsFirst(atts: seq<(string, string)>)
    requires atts != []
    ensures BlankAtts(atts) == [(atts[0].0, Blanks(atts[0].1))] + BlankAtts(atts[1..])
  {
    hide Blanks;
  }

  lemma {:induction false} NormalAttsFirst(defaults: seq<DefaultAtt>, atts: seq<(string, string)>)
    requires atts != []
    ensures NormalAtts(defaults, atts) == [NormalAtt(defaults, atts[0])] + NormalAtts(defaults, atts[1..])
  {
    hide NormalAtt;
  }

  lemma {:induction false} UniqueNames(a: seq<(string, string)>, b: seq<(string, string)>)
    requires |a| == |b| && Unique(a) && forall i :: 0 <= i < |a| ==> a[i].0 == b[i].0
    ensures Unique(b)
  {
  }

  /** One turn of the loop over the records. */
  lemma {:induction false} EachTurn(internal: Encoding, dtd: Dtd, open: set<string>, enc: Encoding, tag: string, defaults: seq<DefaultAtt>,
                 list: seq<Attribute>, att: (string, string), done: seq<(string, string)>)
    requires list != [] && NameAt(enc, tag, list[0].name) == att.0 && !Has(done, att.0)
    requires var raw := Slice(tag, list[0].valuePtr, list[0].valueEnd);
             (if list[0].normalized then Value(raw) else StoreValue(internal, dtd, open, enc, IsCdata(defaults, att.0), raw)) == Value(att.1)
    ensures StoreEach(internal, dtd, open, enc, tag, defaults, list, done) == StoreEach(internal, dtd, open, enc, tag, defaults, list[1..], done + [att])
  {
    hide StoreValue; hide IsCdata; hide NameAt; hide Slice;
  }

  lemma {:induction false} FirstAtt(enc: Encoding, value: string, atts: seq<(string, string)>, done: seq<(string, string)>)
    requires atts != [] && LegalAtts(enc, atts) && Unique(done + atts)
    ensures LegalName(enc, atts[0].0) && LegalText(enc, atts[0].1) && LegalAtts(enc, atts[1..]) && !Has(done, atts[0].0)
    ensures Unique(done + [(atts[0].0, value)] + atts[1..])
  {
    hide LegalName; hide LegalText; hide Has; hide Unique;
    var first := (atts[0].0, value);
    assert done + [atts[0]] + atts[1..] == done + atts;
    HasNot(done, atts[0], atts[1..]);
    UniqueNames(done + [atts[0]] + atts[1..], done + [first] + atts[1..]);
  }

  lemma {:induction false} NormalAttsBehind(defaults: seq<DefaultAtt>, done: seq<(string, string)>, atts: seq<(string, string)>)
    requires atts != []
    ensures done + [NormalAtt(defaults, atts[0])] + NormalAtts(defaults, atts[1..]) == done + NormalAtts(defaults, atts)
  {
    hide NormalAtt; hide NormalAtts;
    NormalAttsFirst(defaults, atts);
  }

  lemma {:induction false} EachStored(internal: Encoding, dtd: Dtd, open: set<string>, enc: Encoding, tag: string, defaults: seq<DefaultAtt>,
                                      list: seq<Attribute>, atts: seq<(string, string)>, p: nat, done: seq<(string, string)>)
    requires Utf8(enc) && LegalAtts(enc, atts) && Unique(done + atts)
    requires At(tag, p, PrintAtts(atts)) && Records(enc, tag, list, atts, p)
    ensures StoreEach(internal, dtd, open, enc, tag, defaults, list, done) == Stored(done + NormalAtts(defaults, atts))
    decreases |atts|
  {
    hide *;
    if atts == [] {
      NoneStored(internal, dtd, open, enc, tag, defaults, list, p, done);
    } else {
      var first := NormalAtt(defaults, atts[0]);
      RecordsRest(enc, tag, list, atts, p);
      FirstAtt(enc, first.1, atts, done);
      NormalAttsBehind(defaults, done, atts);
      FirstNormal(defaults, atts[0]);
      PrintAttsFirst(atts);
      AtParts(tag, p, PrintAtt(atts[0]), PrintAtts(atts[1..]));
      AttParts(tag, p, atts[0]);
      AttNameFound(enc, tag, p, atts[0]);
      RecordAt(atts[0], p);
      ValueStored(internal, dtd, open, enc, tag, list[0], atts[0].1, IsCdata(defaults, atts[0].0));
      EachTurn(internal, dtd, open, enc, tag, defaults, list, first, done);
      EachStored(internal, dtd, open, enc, tag, defaults, list[1..], atts[1..], p + |PrintAtt(atts[0])|, done + [first]);
    }
  }

  lemma {:induction false} FirstNormal(defaults: seq<DefaultAtt>, att: (string, string))
    ensures NormalAtt(defaults, att) == (att.0, Typed(IsCdata(defaults, att.0), Blanks(att.1)))
  {
  }

  lemma {:induction false} NoneStored(internal: Encoding, dtd: Dtd, open: set<string>, enc: Encoding, tag: string, defaults: seq<DefaultAtt>,
                                      list: seq<Attribute>, p: nat, done: seq<(string, string)>)
    requires Records(enc, tag, list, [], p)
    ensures StoreEach(internal, dtd, open, enc, tag, defaults, list, done) == Stored(done + NormalAtts(defaults, []))
  {
    hide StoreValue; hide NameAt; hide Slice;
    NoRecords(enc, tag, list, p);
    assert done + NormalAtts(defaults, []) == done;
  }

  lemma {:induction false} RecordAt(att: (string, string), p: nat)
    ensures var a := PositionOf(att, p); a.name == p + 1 && a.valuePtr == p + |att.0| + 3 && a.valueEnd == a.valuePtr + |Escape(att.1)|
  {
  }

  lemma {:induction false} NoRecords(enc: Encoding, tag: string, list: seq<Attribute>, p: nat)
    requires Records(enc, tag, list, [], p)
    ensures list == []
  {
  }

  lemma {:induction false} AttNameFound(enc: Encoding, s: string, p: nat, att: (string, string))
    requires Utf8(enc) && At(s, p, PrintAtt(att)) && LegalName(enc, att.0)
    ensures NameAt(enc, s, p + 1) == att.0
  {
    hide Utf8; hide LegalName; hide NameAt; hide PrintAtt;
    AttParts(s, p, att);
    AtFirst(s, p + 1 + |att.0|, "=");
    NameFound(enc, s, p + 1, att.0);
  }

  // ---- Tags ----

  lemma {:induction false} TailStart(atts: seq<(string, string)>, empty: bool)
    ensures var tail := PrintAtts(atts) + TagTail(empty); tail != "" && EndsName(tail[0])
  {
    hide PrintAtts;
    if atts != [] {
      PrintAttsFirst(atts);
      assert PrintAtt(atts[0])[0] == ' ';
    } else {
      assert PrintAtts(atts) == "" by { NoAtts(); }
    }
  }

  lemma {:induction false} NoAtts()
    ensures PrintAtts([]) == ""
  {
  }

  lemma {:induction false} OpenTagParts(name: string, atts: seq<(string, string)>, empty: bool)
    ensures var s := OpenTag(name, atts, empty);
            && At(s, 0, s) && At(s, 1, name) && At(s, 1 + |name|, PrintAtts(atts)) && 1 + |name| < |s| && EndsName(s[1 + |name|])
  {
    hide PrintAtts; hide EndsName;
    var s, tail := OpenTag(name, atts, empty), PrintAtts(atts) + TagTail(empty);
    assert s == "<" + (name + tail);
    TailStart(atts, empty);
    TagLayout(s, name, PrintAtts(atts), TagTail(empty));
  }

  lemma {:induction false} TagLayout(s: string, name: string, atts: string, end: string)
    requires s == "<" + (name + (atts + end)) && atts + end != ""
    ensures At(s, 0, s) && At(s, 1, name) && At(s, 1 + |name|, atts) && 1 + |name| < |s| && s[1 + |name|] == (atts + end)[0]
  {
  }

  /** What the tokenizer and storeAtts make of a printed start tag. */
  lemma {:induction false} OpenTagParsed(internal: Encoding, dtd: Dtd, open: set<string>, enc: Encoding, name: string, atts: seq<(string, string)>, empty: bool, rest: string)
    requires Utf8(enc) && LegalName(enc, name) && LegalAtts(enc, atts) && Unique(atts)
    ensures var tag := OpenTag(name, atts, empty);
            && ContentTok(enc, tag + rest) == Tok(TagToken(empty, atts != []), |tag|)
            && NameAt(enc, tag, 1) == name
            && StoreAtts(internal, dtd, open, enc, tag, name) == Stored(Supplied(dtd, name, atts))
  {
    hide Utf8; hide LegalName; hide LegalText; hide NameAt; hide PrintAtts; hide Unique; hide GetAtts; hide MarkedPlain; hide ContentTok; hide StoreEach; hide Positions; hide Scan; hide Passed; hide OpenTag; hide LegalAtts;
    var tag := OpenTag(name, atts, empty);
    OpenTagParts(name, atts, empty);
    TagTokIs(enc, name, atts, empty, rest);
    TagTokIs(enc, name, atts, empty, "");
    assert tag + "" == tag && tag[..|tag|] == tag;
    NameFound(enc, tag, 1, name);
    assert enc.byteType('x') == NMSTRT && enc.byteType('<') == LT by { TableFacts(enc); }
    OpenTagScan(enc, tag, name, atts, empty);
    TagAttributes(enc, tag);
    var list := GetAtts(enc, tag, 1, GETTER_START).list;
    assert [] + atts == atts;
    EachStored(internal, dtd, open, enc, tag, Defaults(dtd, name), list, atts, 1 + |name|, []);
    assert [] + NormalAtts(Defaults(dtd, name), atts) == NormalAtts(Defaults(dtd, name), atts);
  }

  lemma {:induction false} TableFacts(enc: Encoding)
    requires Utf8(enc)
    ensures enc.byteType('x') == NMSTRT && enc.byteType('<') == LT && enc.byteType('&') == AMP && enc.byteType('\n') == LF
  {
    assert enc.byteType('x') == Utf8Type('x') && enc.byteType('<') == Utf8Type('<') && enc.byteType('&') == Utf8Type('&') && enc.byteType('\n') == Utf8Type('\n');
  }

  lemma {:induction false} TagTokIs(enc: Encoding, name: string, atts: seq<(string, string)>, empty: bool, rest: string)
    requires Utf8(enc) && LegalName(enc, name) && LegalAtts(enc, atts)
    ensures var tag := OpenTag(name, atts, empty); ContentTok(enc, tag + rest) == Tok(TagToken(empty, atts != []), |tag|)
  {
    hide Utf8; hide LegalName; hide LegalAtts; hide Scan; hide Passed; hide OpenTag;
    var tag := OpenTag(name, atts, empty);
    var w := tag + rest;
    assert At(w, 0, tag);
    OpenTagScan(enc, w, name, atts, empty);
    TableFacts(enc);
  }

  lemma {:induction false} CloseTagName(enc: Encoding, name: string)
    requires Utf8(enc) && LegalName(enc, name)
    ensures NameAt(enc, CloseTag(name), 2) == name
  {
    hide Utf8; hide LegalName; hide NameAt;
    var s := CloseTag(name);
    assert At(s, 0, "</" + (name + ">"));
    AtParts(s, 0, "</", name + ">");
    AtParts(s, 2, name, ">");
    AtHead(s, 2 + |name|, ">");
    NameFound(enc, s, 2, name);
  }

  lemma {:induction false} CloseTagParts(name: string, rest: string)
    ensures var w := CloseTag(name) + rest;
            && At(w, 0, "<") && At(w, 1, "/") && At(w, 2, name) && At(w, 2 + |name|, ">") && |w| > 2 + |name| && |CloseTag(name)| == |name| + 3
  {
    hide At;
    var w := CloseTag(name) + rest;
    assert At(w, 0, "<" + ("/" + (name + ">"))) by { AtStart(w, "<" + ("/" + (name + ">")), rest); }
    AtParts(w, 0, "<", "/" + (name + ">"));
    AtParts(w, 1, "/", name + ">");
    AtParts(w, 2, name, ">");
  }

  lemma {:induction false} AtStart(w: string, part: string, rest: string)
    requires w == part + rest
    ensures At(w, 0, part)
  {
  }

  lemma {:induction false} TagFirst(enc: Encoding, w: string)
    requires Utf8(enc) && w != "" && w[0] == '<'
    ensures ContentTok(enc, w) == Scan(enc, LtOpen, w, 1)
  {
    hide Scan; hide Utf8;
    TableFacts(enc);
  }

  lemma {:induction false} CloseTagTok(enc: Encoding, name: string, rest: string)
    requires Utf8(enc) && LegalName(enc, name)
    ensures ContentTok(enc, CloseTag(name) + rest) == Tok(EndTag, |CloseTag(name)|)
  {
    hide *;
    var w := CloseTag(name) + rest;
    CloseTagParts(name, rest);
    AtFirst(w, 0, "<");
    TagFirst(enc, w);
    AtFirst(w, 1, "/");
    EndMoves(enc, w[1..]);
    EndEntered(enc, w);
    AtFirst(w, 2 + |name|, ">");
    CloseName(enc, w, name);
    EndMoves(enc, w[2 + |name|..]);
    EndAccepted(enc, w, 2 + |name|);
  }

  lemma {:induction false} CloseName(enc: Encoding, w: string, name: string)
    requires Utf8(enc) && LegalName(enc, name) && At(w, 2, name) && At(w, 2 + |name|, ">")
    ensures 2 + |name| <= |w| && Scan(enc, EndTagOpen, w, 2) == Scan(enc, EndTagName, w, 2 + |name|)
  {
    hide Utf8; hide LegalName; hide Scan; hide Passed; hide Step; hide At;
    AtFirst(w, 2 + |name|, ">");
    WholeName(enc, w, EndTagOpen, 2, name, 0, 0);
  }

  lemma {:induction false} EndEntered(enc: Encoding, w: string)
    requires 1 < |w| && Step(enc, LtOpen, w[1..]) == Go(1, EndTagOpen)
    ensures Scan(enc, LtOpen, w, 1) == Scan(enc, EndTagOpen, w, 2)
  {
    hide Step; hide Scan;
    ScanUnfold(enc, LtOpen, w, 1);
  }

  lemma {:induction false} EndAccepted(enc: Encoding, w: string, p: nat)
    requires p < |w| && Step(enc, EndTagName, w[p..]) == Accept(EndTag, 1)
    ensures Scan(enc, EndTagName, w, p) == Tok(EndTag, p + 1)
  {
    hide Step; hide Scan;
    ScanUnfold(enc, EndTagName, w, p);
  }

  lemma {:induction false} EndMoves(enc: Encoding, w: string)
    requires w != "" && Utf8(enc)
    ensures w[0] == '/' ==> Step(enc, LtOpen, w) == Go(1, EndTagOpen)
    ensures w[0] == '>' ==> Step(enc, EndTagName, w) == Accept(EndTag, 1)
  {
    hide Step;
    if w[0] == '/' { SlashMoves(enc, w); }
    if w[0] == '>' { GtMoves(enc, w); }
  }

  lemma {:induction false} SlashMoves(enc: Encoding, w: string)
    requires w != "" && Utf8(enc) && w[0] == '/'
    ensures Step(enc, LtOpen, w) == Go(1, EndTagOpen)
  {
    hide Step;
    StepBy(enc, LtOpen, w);
    assert enc.byteType(w[0]) == Utf8Type(w[0]);
  }

  lemma {:induction false} GtMoves(enc: Encoding, w: string)
    requires w != "" && Utf8(enc) && w[0] == '>'
    ensures Step(enc, EndTagName, w) == Accept(EndTag, 1)
  {
    hide Step;
    StepBy(enc, EndTagName, w);
    assert enc.byteType(w[0]) == Utf8Type(w[0]);
  }

  // ---- Text ----

  lemma {:induction false} SameThen(e: seq<Event>, a: Result, b: Result)
    requires Same(a, b)
    ensures Same(Then(e, a), Then(e, b))
  {
  }

  /** Reporting the first character of character data by itself makes no difference to the text. */
  lemma {:induction false} DataSplit(env: Env, at: Place, prolog: Prolog, tags: seq<string>, w: string, n: nat, f: bool)
    requires w != "" && DataStep(at.enc, w) == Over(n)
    ensures Same(In(env, at, prolog, tags, w, f), Then(CharBytes(w[..n]), In(env, at, prolog, tags, w[n..], f)))
  {
    hide In; hide ContentTok; hide DataStep; hide DataRun;
    var enc, rest := at.enc, w[n..];
    DataFirst(enc, w);
    var v := DataRun(enc, w, n);
    if v == Tok(DataChars, n) {
      DataOf(env, at, prolog, tags, w, f);
    } else {
      DataRunResume(enc, w, n);
      if v.Tok? {
        DataOf(env, at, prolog, tags, w, f);
        DataOf(env, at, prolog, tags, rest, f);
        var k := v.next - n;
        ThenThen(CharBytes(w[..n]), CharBytes(rest[..k]), In(env, at, prolog, tags, rest[k..], f));
        assert CharBytes(w[..n]) + CharBytes(rest[..k]) == CharBytes(w[..v.next]) && rest[k..] == w[v.next..];
      } else {
        InvalidOf(env, at, prolog, tags, w, f);
        InvalidOf(env, at, prolog, tags, rest, f);
      }
    }
  }

  lemma {:induction false} EscapeHasNoGt(s: string)
    ensures forall i :: 0 <= i < |Escape(s)| ==> Escape(s)[i] != '>'
    decreases |s|
  {
    if s != "" {
      EscapeHasNoGt(s[1..]);
      var a, b := EscapeChar(s[0]), Escape(s[1..]);
      assert forall i :: 0 <= i < |a| ==> a[i] != '>';
    }
  }

  /** What may follow printed text: markup, or the end of the document or entity. */
  predicate Edge(rest: string, f: bool) { if rest == "" then f else rest[0] == '<' || rest[0] == '&' }

  /** In printed text no "]" starts "]]>". */
  lemma {:induction false} BracketData(enc: Encoding, more: string, rest: string, f: bool)
    requires Utf8(enc) && Edge(rest, f) && Escape(more) + rest != "" && Escape(more) + rest != "]"
    ensures DataStep(enc, "]" + (Escape(more) + rest)) == Over(1)
  {
    hide Escape;
    var u := Escape(more) + rest;
    EscapeHasNoGt(more);
    assert enc.byteType(']') == Utf8Type(']') == RSQB;
    if |u| >= 2 && u[0] == ']' {
      assert u[1] != '>' by {
        if |Escape(more)| >= 2 { assert u[1] == Escape(more)[1]; } else { assert |Escape(more)| == 1; assert u[1] == rest[0]; }
      }
    } else {
      assert |u| == 1 ==> u[0] != ']';
    }
    assert ("]" + u)[1..] == u;
  }

  /** Brackets at the very end. */
  lemma {:induction false} BracketsLast(env: Env, at: Place, prolog: Prolog, tags: seq<string>, u: string)
    requires Utf8(at.enc) && (u == "" || u == "]")
    ensures In(env, at, prolog, tags, "]" + u, true) == Then(CharBytes("]"), In(env, at, prolog, tags, u, true))
  {
    hide Scan; hide DataRun;
    assert at.enc.byteType(']') == Utf8Type(']') == RSQB;
    assert ContentTok(at.enc, "]") == TrailingRsqb && ContentTok(at.enc, "]]") == TrailingRsqb;
    var w := "]" + u;
    assert w == if u == "" then "]" else "]]";
    EndsIn(env, at, prolog, tags, w);
    if u == "" { EndsIn(env, at, prolog, tags, ""); } else { EndsIn(env, at, prolog, tags, "]"); }
    assert CharBytes("]") + [] == CharBytes("]") && CharBytes("]") + CharBytes("]") == CharBytes("]]");
  }

  lemma {:induction false} EndsIn(env: Env, at: Place, prolog: Prolog, tags: seq<string>, w: string)
    requires var v := ContentTok(at.enc, w); v.NoBytes? || v.TrailingRsqb? || v.TrailingCr?
    ensures In(env, at, prolog, tags, w, true) ==
            Result(if ContentTok(at.enc, w).NoBytes? then [] else if ContentTok(at.enc, w).TrailingCr? then [CharByte('\n')] else CharBytes(w), AtEnd(at.base, prolog, tags))
  {
    hide ContentTok; hide Cdata; hide Epilog; hide Handle;
  }

  /** Character data that is not "]]>". */
  lemma {:induction false} OrdinaryData(enc: Encoding, c: string, more: string, rest: string, f: bool)
    requires Utf8(enc) && c != "" && LegalChar(enc, c) == |c| && !Special(c[0]) && c[0] !in "\r\n"
    requires Edge(rest, f) && (c == "]" ==> Escape(more) + rest != "" && Escape(more) + rest != "]")
    ensures DataStep(enc, c + (Escape(more) + rest)) == Over(|c|)
  {
    hide Escape;
    assert enc.byteType(c[0]) == Utf8Type(c[0]);
    if c[0] == ']' {
      assert c == "]";
      BracketData(enc, more, rest, f);
    } else {
      var w := c + (Escape(more) + rest);
      assert w[0] == c[0] && w[..|c|] == c && c[..|c|] == c;
      assert c[0] != '\r' && c[0] != '\n' by { assert "\r\n"[0] == '\r' && "\r\n"[1] == '\n'; }
    }
  }

  lemma {:induction false} SpecialParsed(env: Env, at: Place, prolog: Prolog, tags: seq<string>, c: char, rest: string, f: bool)
    requires Utf8(at.enc) && Special(c)
    ensures In(env, at, prolog, tags, EscapeChar(c) + rest, f) == Then([CharByte(c)], In(env, at, prolog, tags, rest, f))
  {
    hide Scan; hide EscapeChar; hide EntityName; hide Content; hide Cdata;
    var w := EscapeChar(c) + rest;
    var n := |EscapeChar(c)|;
    ReferenceTok(at.enc, c, rest);
    EntityNames(c);
    TableFacts(at.enc);
    assert ContentTok(at.enc, w) == Tok(EntityRef, n);
    assert w[..n] == EscapeChar(c) && w[n..] == rest;
    ContentOfToken(env, prolog, at.open, at.enc, at.base, tags, w, f);
    assert Expand(env, prolog, at.open, tags, EntityName(c)) == Result([CharByte(c)], GoingOn(prolog, tags));
  }

  /** A CR is reported as a LF, and swallows a LF behind it. */
  lemma {:induction false} CrParsed(env: Env, at: Place, prolog: Prolog, tags: seq<string>, rest: string, f: bool)
    requires Utf8(at.enc) && at.enc.byteType('\r') == CR && rest != ""
    ensures var rest' := if rest[0] == '\n' then rest[1..] else rest;
            In(env, at, prolog, tags, "\r" + rest, f) == Then([CharByte('\n')], In(env, at, prolog, tags, rest', f))
  {
    hide Scan; hide Content; hide Cdata; hide Expand;
    var w := "\r" + rest;
    assert (rest[0] != '\r' ==> at.enc.byteType(rest[0]) == Utf8Type(rest[0])) && w[1] == rest[0];
    assert ContentTok(at.enc, w) == Tok(DataNewline, if rest[0] == '\n' then 2 else 1);
    assert w[1..] == rest && w[2..] == rest[1..];
    ContentOfToken(env, prolog, at.open, at.enc, at.base, tags, w, f);
  }

  /** The line ends of XML 1.0, section 2.11. */
  function LineEnds(s: string): string
  {
    if s == "" then ""
    else if s[0] == '\r' then "\n" + LineEnds(if |s| > 1 && s[1] == '\n' then s[2..] else s[1..])
    else [s[0]] + LineEnds(s[1..])
  }

  lemma {:induction false} LineEndsBehind(a: string, b: string)
    requires forall i :: 0 <= i < |a| ==> a[i] != '\r'
    ensures LineEnds(a + b) == a + LineEnds(b)
    decreases |a|
  {
    if a == "" {
      assert a + b == b && "" + LineEnds(b) == LineEnds(b);
    } else {
      assert (a + b)[1..] == a[1..] + b && a == [a[0]] + a[1..];
      LineEndsBehind(a[1..], b);
    }
  }

  lemma {:induction false} NewlineParsed(env: Env, at: Place, prolog: Prolog, tags: seq<string>, rest: string, f: bool)
    requires Utf8(at.enc)
    ensures In(env, at, prolog, tags, "\n" + rest, f) == Then([CharByte('\n')], In(env, at, prolog, tags, rest, f))
  {
    hide Scan; hide Content; hide Cdata; hide Expand;
    var w := "\n" + rest;
    TableFacts(at.enc);
    assert ContentTok(at.enc, w) == Tok(DataNewline, 1);
    assert w[1..] == rest;
    ContentOfToken(env, prolog, at.open, at.enc, at.base, tags, w, f);
  }

  lemma {:induction false} CharBytesConcat(a: string, b: string)
    ensures CharBytes(a + b) == CharBytes(a) + CharBytes(b)
  {
  }

  /** How the first character of a printed text is parsed: `n` of its bytes, reported as `out`. */
  ghost predicate StepsOver(env: Env, at: Place, prolog: Prolog, tags: seq<string>, text: string, rest: string, f: bool, n: nat, out: string)
  {
    && 0 < n <= |text| && LegalText(at.enc, text[n..])
    && LineEnds(text) == out + LineEnds(text[n..])
    && Same(In(env, at, prolog, tags, Escape(text) + rest, f), Then(CharBytes(out), In(env, at, prolog, tags, Escape(text[n..]) + rest, f)))
  }

  lemma {:induction false} SpecialStep(env: Env, at: Place, prolog: Prolog, tags: seq<string>, text: string, rest: string, f: bool)
    requires Utf8(at.enc) && text != "" && LegalText(at.enc, text) && Special(text[0])
    ensures StepsOver(env, at, prolog, tags, text, rest, f, 1, [text[0]])
  {
    hide In; hide LegalChar; hide Utf8; hide Escape; hide EscapeChar;
    SpecialChar(at.enc, text);
    EscapeFirst(text);
    var u := Escape(text[1..]) + rest;
    assert Escape(text) + rest == EscapeChar(text[0]) + u;
    SpecialParsed(env, at, prolog, tags, text[0], u, f);
    assert CharBytes([text[0]]) == [CharByte(text[0])];
  }

  lemma {:induction false} CrIsCr(enc: Encoding, text: string)
    requires Utf8(enc) && text != "" && LegalText(enc, text) && text[0] == '\r'
    ensures enc.byteType('\r') == CR
  {
    LegalBlank(enc, text);
  }

  lemma {:induction false} CrLast(env: Env, at: Place, prolog: Prolog, tags: seq<string>)
    requires at.enc.byteType('\r') == CR
    ensures In(env, at, prolog, tags, "\r", true) == Then([CharByte('\n')], In(env, at, prolog, tags, "", true))
  {
    hide Scan; hide DataRun;
    assert ContentTok(at.enc, "\r") == TrailingCr;
    EndsIn(env, at, prolog, tags, "\r");
    EndsIn(env, at, prolog, tags, "");
  }

  lemma {:induction false} CrStep(env: Env, at: Place, prolog: Prolog, tags: seq<string>, text: string, rest: string, f: bool) returns (n: nat)
    requires Utf8(at.enc) && text != "" && LegalText(at.enc, text) && text[0] == '\r' && Edge(rest, f)
    ensures StepsOver(env, at, prolog, tags, text, rest, f, n, "\n")
  {
    hide In; hide Utf8; hide Escape; hide LegalText;
    n := if |text| > 1 && text[1] == '\n' then 2 else 1;
    EscapeFirst(text);
    CrIsCr(at.enc, text);
    BlankLegal(at.enc, text);
    var u := Escape(text[1..]) + rest;
    assert Escape(text) + rest == "\r" + u;
    assert |text| > 1 ==> u != "" by { if |text| > 1 { EscapeFirst(text[1..]); EscapeHeads(text[1]); } }
    if u != "" { CrParsed(env, at, prolog, tags, u, f); } else { CrLast(env, at, prolog, tags); assert "\r" + u == "\r" && rest == ""; }
    if |text| > 1 {
      EscapeFirst(text[1..]);
      EscapeHeads(text[1]);
      assert text[1..][1..] == text[2..] && u[0] == EscapeChar(text[1])[0];
      if text[1] == '\n' { assert u[1..] == Escape(text[2..]) + rest; }
    } else {
      EscapePlain("");
      assert u == rest && text == "\r";
    }
    assert CharBytes("\n") == [CharByte('\n')];
  }

  lemma {:induction false} OrdinaryStep(env: Env, at: Place, prolog: Prolog, tags: seq<string>, text: string, rest: string, f: bool)
    requires Utf8(at.enc) && text != "" && LegalText(at.enc, text) && !Special(text[0]) && text[0] != '\r' && Edge(rest, f)
    ensures var n := LegalChar(at.enc, text); StepsOver(env, at, prolog, tags, text, rest, f, n, text[..n])
  {
    hide In; hide LegalChar; hide Utf8; hide Escape; hide EscapeChar; hide DataStep; hide LineEnds;
    var n := LegalChar(at.enc, text);
    OrdinaryChar(at.enc, text);
    LegalCharAlone(at.enc, text);
    NoCrInside(at.enc, text[..n]);
    LineEndsBehind(text[..n], text[n..]);
    var u := Escape(text[n..]) + rest;
    var w := Escape(text) + rest;
    assert text[..n] + text[n..] == text && w == text[..n] + u && w[..n] == text[..n] && w[n..] == u;
    if text[0] == '\n' {
      BlankChar(at.enc, text);
      assert text[..1] == "\n" && CharBytes("\n") == [CharByte('\n')];
      NewlineParsed(env, at, prolog, tags, u, f);
    } else if text[..n] == "]" && (u == "" || u == "]") {
      BracketEdge(text[n..], rest, f);
      BracketsLast(env, at, prolog, tags, u);
    } else {
      OrdinaryData(at.enc, text[..n], text[n..], rest, f);
      DataSplit(env, at, prolog, tags, w, n, f);
    }
  }

  lemma {:induction false} BracketEdge(more: string, rest: string, f: bool)
    requires Edge(rest, f)
    ensures rest != "" ==> Escape(more) + rest != "" && Escape(more) + rest != "]"
  {
    hide Escape;
    assert rest != "" ==> (Escape(more) + rest)[|Escape(more)|] == rest[0];
  }

  lemma {:induction false} NoCrInside(enc: Encoding, c: string)
    requires c != "" && LegalChar(enc, c) == |c| && c[0] != '\r'
    ensures forall i :: 0 <= i < |c| ==> c[i] != '\r'
  {
  }

  /** Escaped text in front of markup, or at the end, is reported as that text, but for its line ends. */
  lemma {:induction false} TextParsed(env: Env, at: Place, prolog: Prolog, tags: seq<string>, text: string, rest: string, f: bool)
    requires Utf8(at.enc) && LegalText(at.enc, text) && Edge(rest, f)
    ensures Same(In(env, at, prolog, tags, Escape(text) + rest, f), Then(CharBytes(LineEnds(text)), In(env, at, prolog, tags, rest, f)))
    decreases |text|
  {
    hide In; hide LegalChar; hide Utf8; hide Escape; hide LegalText;
    if text == "" {
      assert Escape(text) == "" by { EscapePlain(""); }
      assert "" + rest == rest;
      NothingThen(In(env, at, prolog, tags, rest, f));
    } else {
      var n, out;
      if Special(text[0]) {
        SpecialStep(env, at, prolog, tags, text, rest, f);
        n, out := 1, [text[0]];
      } else if text[0] == '\r' {
        n := CrStep(env, at, prolog, tags, text, rest, f);
        out := "\n";
      } else {
        OrdinaryStep(env, at, prolog, tags, text, rest, f);
        n, out := LegalChar(at.enc, text), text[..LegalChar(at.enc, text)];
      }
      TextParsed(env, at, prolog, tags, text[n..], rest, f);
      TextStep(env, at, prolog, tags, text, n, out, rest, f);
    }
  }

  lemma {:induction false} TextStep(env: Env, at: Place, prolog: Prolog, tags: seq<string>, text: string, n: nat, out: string, rest: string, f: bool)
    requires StepsOver(env, at, prolog, tags, text, rest, f, n, out)
    requires Same(In(env, at, prolog, tags, Escape(text[n..]) + rest, f), Then(CharBytes(LineEnds(text[n..])), In(env, at, prolog, tags, rest, f)))
    ensures Same(In(env, at, prolog, tags, Escape(text) + rest, f), Then(CharBytes(LineEnds(text)), In(env, at, prolog, tags, rest, f)))
  {
    hide In; hide Escape; hide LineEnds; hide LegalText;
    var e, e' := CharBytes(out), CharBytes(LineEnds(text[n..]));
    SameThen(e, In(env, at, prolog, tags, Escape(text[n..]) + rest, f), Then(e', In(env, at, prolog, tags, rest, f)));
    ThenThen(e, e', In(env, at, prolog, tags, rest, f));
    CharBytesConcat(out, LineEnds(text[n..]));
  }

  // ---- Elements ----

  /** Names, values and texts the printer may be given. */
  predicate Legal(enc: Encoding, t: Tree)
    decreases t, 0
  {
    match t
    case Text(data) => LegalText(enc, data)
    case Tag(name, atts, kids) => LegalName(enc, name) && LegalAtts(enc, atts) && LegalAll(enc, kids)
  }

  predicate LegalAll(enc: Encoding, l: seq<Tree>)
    decreases l, 0
  {
    l == [] || (Legal(enc, l[0]) && LegalAll(enc, l[1..]))
  }

  /** What comes back: line ends in text, white space and types in values, and declared values, as XML 1.0 has them read. */
  function RestoredBy(dtd: Dtd, t: Tree): Tree
    decreases t, 0
  {
    match t
    case Text(data) => Text(LineEnds(data))
    case Tag(name, atts, kids) => Tree.Tag(name, Supplied(dtd, name, atts), RestoredAllBy(dtd, kids))
  }

  function RestoredAllBy(dtd: Dtd, l: seq<Tree>): (r: seq<Tree>)
    ensures |r| == |l|
    decreases l, 0
  {
    if l == [] then [] else [RestoredBy(dtd, l[0])] + RestoredAllBy(dtd, l[1..])
  }

  lemma {:induction false} RestoredPlain(dtd: Dtd, t: Tree)
    requires dtd.elementAtts == map[]
    ensures RestoredBy(dtd, t) == Restored(t)
    decreases t, 0
  {
    hide BlankAtts; hide NormalAtts; hide AddDefaults; hide LineEnds;
    if t.Tag? {
      UndeclaredAtts(t.atts);
      RestoredAllPlain(dtd, t.kids);
    }
  }

  lemma {:induction false} RestoredAllPlain(dtd: Dtd, l: seq<Tree>)
    requires dtd.elementAtts == map[]
    ensures RestoredAllBy(dtd, l) == RestoredAll(l)
    decreases l, 0
  {
    hide RestoredBy; hide Restored;
    if l != [] {
      RestoredPlain(dtd, l[0]);
      RestoredAllPlain(dtd, l[1..]);
    }
  }

  /** The same without a DTD. */
  function Restored(t: Tree): Tree
    decreases t, 0
  {
    match t
    case Text(data) => Text(LineEnds(data))
    case Tag(name, atts, kids) => Tree.Tag(name, BlankAtts(atts), RestoredAll(kids))
  }

  function RestoredAll(l: seq<Tree>): (r: seq<Tree>)
    ensures |r| == |l|
    decreases l, 0
  {
    if l == [] then [] else [Restored(l[0])] + RestoredAll(l[1..])
  }

  /** What comes behind a tag that leaves `tags` open. */
  function Onward(env: Env, at: Place, prolog: Prolog, tags: seq<string>, rest: string, f: bool): Result
  {
    if tags == [] then Epilog(env, prolog, tags, rest, f) else In(env, at, prolog, tags, rest, f)
  }

  lemma {:induction false} OpenParsed(env: Env, at: Place, prolog: Prolog, tags: seq<string>, name: string, atts: seq<(string, string)>, empty: bool, rest: string, f: bool)
    requires Utf8(at.enc) && LegalName(at.enc, name) && LegalAtts(at.enc, atts) && Unique(atts)
    ensures In(env, at, prolog, tags, OpenTag(name, atts, empty) + rest, f) ==
              if empty then Then([StartElement(name, Supplied(prolog.dtd, name, atts)), EndElement(name)], Onward(env, at, prolog, tags, rest, f))
              else Then([StartElement(name, Supplied(prolog.dtd, name, atts))], In(env, at, prolog, tags + [name], rest, f))
  {
    hide Utf8; hide LegalName; hide LegalAtts; hide Unique; hide OpenTag; hide ContentTok; hide NameAt; hide StoreAtts; hide Content; hide Cdata; hide Epilog; hide Supplied;
    var tag := OpenTag(name, atts, empty);
    var w := tag + rest;
    OpenTagParsed(env.internal, prolog.dtd, at.open, at.enc, name, atts, empty, rest);
    assert w[..|tag|] == tag && w[|tag|..] == rest;
    ContentOfToken(env, prolog, at.open, at.enc, at.base, tags, w, f);
    HandleTag(env, at, prolog, tags, TagToken(empty, atts != []), tag);
  }

  lemma {:induction false} HandleTag(env: Env, at: Place, prolog: Prolog, tags: seq<string>, tok: Token, token: string)
    requires StartTag(tok)
    ensures Handle(env, prolog, at.open, at.enc, at.base, tags, tok, token) == XmlContent.Tag(env, prolog, at.open, at.enc, tags, token, Closes(tok))
    ensures tok != CdataSectOpen
  {
    hide XmlContent.Tag;
  }

  lemma {:induction false} HandleEnd(env: Env, at: Place, prolog: Prolog, tags: seq<string>, name: string, token: string)
    requires NameAt(at.enc, token, 2) == name && at.base <= |tags|
    ensures Handle(env, prolog, at.open, at.enc, at.base, tags + [name], EndTag, token) == Result([EndElement(name)], GoingOn(prolog, tags))
  {
    hide NameAt; hide Expand; hide XmlContent.Tag;
    assert (tags + [name])[..|tags|] == tags;
  }

  lemma {:induction false} CloseParsed(env: Env, at: Place, prolog: Prolog, tags: seq<string>, name: string, rest: string, f: bool)
    requires Utf8(at.enc) && LegalName(at.enc, name) && at.base <= |tags|
    ensures In(env, at, prolog, tags + [name], CloseTag(name) + rest, f) == Then([EndElement(name)], Onward(env, at, prolog, tags, rest, f))
  {
    hide Utf8; hide LegalName; hide CloseTag; hide ContentTok; hide NameAt; hide Content; hide Cdata; hide Epilog; hide Expand; hide XmlContent.Tag;
    var tag := CloseTag(name);
    var w := tag + rest;
    CloseTagTok(at.enc, name, rest);
    CloseTagName(at.enc, name);
    assert w[..|tag|] == tag && w[|tag|..] == rest;
    HandleEnd(env, at, prolog, tags, name, tag);
    hide Handle;
    ContentOfToken(env, prolog, at.open, at.enc, at.base, tags + [name], w, f);
  }

  lemma {:induction false} PrintStarts(t: Tree)
    requires t.Tag?
    ensures Print(t) != "" && Print(t)[0] == '<'
  {
    hide PrintAtts; hide PrintAll;
  }

  /** A printed element is reported as its events, and the parser goes on behind it. */
  lemma {:induction false} TagParsed(env: Env, at: Place, prolog: Prolog, tags: seq<string>, t: Tree, rest: string, f: bool)
    requires Utf8(at.enc) && t.Tag? && Legal(at.enc, t) && Normal(t) && at.base <= |tags|
    ensures Same(In(env, at, prolog, tags, Print(t) + rest, f), Then(EventsOf(RestoredBy(prolog.dtd, t)), Onward(env, at, prolog, tags, rest, f)))
    decreases t, 0
  {
    hide Utf8; hide LegalName; hide LegalAtts; hide Unique; hide OpenTag; hide CloseTag; hide In; hide Onward; hide PrintAll; hide EventsOfAll; hide RestoredAllBy; hide Supplied;
    var Tag(name, atts, kids) := t;
    if kids == [] {
      OpenParsed(env, at, prolog, tags, name, atts, true, rest, f);
      NoEvents();
      assert EventsOf(RestoredBy(prolog.dtd, t)) == [StartElement(name, Supplied(prolog.dtd, name, atts)), EndElement(name)];
    } else {
      var start, end := [StartElement(name, Supplied(prolog.dtd, name, atts))], [EndElement(name)];
      var onward := Onward(env, at, prolog, tags, rest, f);
      var behind := CloseTag(name) + rest;
      var inside := PrintAll(kids) + behind;
      assert Print(t) + rest == OpenTag(name, atts, false) + inside;
      OpenParsed(env, at, prolog, tags, name, atts, false, inside, f);
      assert behind != "" && behind[0] == '<' by { CloseTagStarts(name); }
      KidsParsed(env, at, prolog, tags + [name], kids, behind, f);
      CloseParsed(env, at, prolog, tags, name, rest, f);
      SameThen(start, In(env, at, prolog, tags + [name], inside, f), Then(EventsOfAll(RestoredAllBy(prolog.dtd, kids)), Then(end, onward)));
      ThenThen(EventsOfAll(RestoredAllBy(prolog.dtd, kids)), end, onward);
      ThenThen(start, EventsOfAll(RestoredAllBy(prolog.dtd, kids)) + end, onward);
      assert start + (EventsOfAll(RestoredAllBy(prolog.dtd, kids)) + end) == EventsOf(RestoredBy(prolog.dtd, t));
    }
  }

  lemma {:induction false} NoEvents()
    ensures EventsOfAll([]) == []
  {
  }

  lemma {:induction false} CloseTagStarts(name: string)
    ensures CloseTag(name) != "" && CloseTag(name)[0] == '<'
  {
  }

  lemma {:induction false} KidsParsed(env: Env, at: Place, prolog: Prolog, tags: seq<string>, l: seq<Tree>, rest: string, f: bool)
    requires Utf8(at.enc) && LegalAll(at.enc, l) && NormalAll(l)
    requires tags != [] && at.base <= |tags| && Edge(rest, f)
    ensures Same(In(env, at, prolog, tags, PrintAll(l) + rest, f), Then(EventsOfAll(RestoredAllBy(prolog.dtd, l)), In(env, at, prolog, tags, rest, f)))
    decreases l, 1
  {
    hide Utf8; hide In; hide Print; hide EventsOf; hide Legal; hide Normal; hide RestoredBy;
    if l == [] {
      assert "" + rest == rest;
      NothingThen(In(env, at, prolog, tags, rest, f));
    } else {
      var here := In(env, at, prolog, tags, rest, f);
      var behind := PrintAll(l[1..]) + rest;
      assert PrintAll(l) + rest == Print(l[0]) + behind;
      KidParsed(env, at, prolog, tags, l, behind, f) by {
        if l[0].Text? { BehindText(l, rest, f); }
      }
      KidsParsed(env, at, prolog, tags, l[1..], rest, f);
      assert RestoredAllBy(prolog.dtd, l)[1..] == RestoredAllBy(prolog.dtd, l[1..]);
      SameThen(EventsOf(RestoredBy(prolog.dtd, l[0])), In(env, at, prolog, tags, behind, f), Then(EventsOfAll(RestoredAllBy(prolog.dtd, l[1..])), here));
      ThenThen(EventsOf(RestoredBy(prolog.dtd, l[0])), EventsOfAll(RestoredAllBy(prolog.dtd, l[1..])), here);
    }
  }

  /** No text follows text, so a tag does, or what is behind. */
  lemma {:induction false} BehindText(l: seq<Tree>, rest: string, f: bool)
    requires l != [] && l[0].Text? && NormalAll(l) && Edge(rest, f)
    ensures var behind := PrintAll(l[1..]) + rest; Edge(behind, f)
  {
    hide Print; hide Normal;
    if |l| > 1 {
      PrintStarts(l[1]);
      assert l[1..][0] == l[1];
    }
  }

  lemma {:induction false} KidParsed(env: Env, at: Place, prolog: Prolog, tags: seq<string>, l: seq<Tree>, behind: string, f: bool)
    requires Utf8(at.enc) && l != [] && Legal(at.enc, l[0]) && Normal(l[0])
    requires tags != [] && at.base <= |tags| && (l[0].Text? ==> Edge(behind, f))
    ensures Same(In(env, at, prolog, tags, Print(l[0]) + behind, f), Then(EventsOf(RestoredBy(prolog.dtd, l[0])), In(env, at, prolog, tags, behind, f)))
    decreases l, 0
  {
    hide Utf8; hide In;
    if l[0].Text? { TextParsed(env, at, prolog, tags, l[0].data, behind, f); } else { TagParsed(env, at, prolog, tags, l[0], behind, f); }
  }

  lemma {:induction false} RestoredNormal(t: Tree)
    requires Normal(t)
    ensures Normal(Restored(t)) && Restored(t).Tag? == t.Tag?
    decreases t, 0
  {
    if t.Tag? {
      BlankAttsAt(t.atts);
      UniqueNames(t.atts, BlankAtts(t.atts));
      RestoredAllNormal(t.kids);
    }
  }

  lemma {:induction false} RestoredAllNormal(l: seq<Tree>)
    requires NormalAll(l)
    ensures NormalAll(RestoredAll(l))
    decreases l, 0
  {
    hide Restored; hide Normal;
    if l != [] {
      RestoredNormal(l[0]);
      RestoredAllNormal(l[1..]);
      assert RestoredAll(l)[1..] == RestoredAll(l[1..]);
      if |l| > 1 {
        RestoredNormal(l[1]);
        assert RestoredAll(l)[1] == RestoredAll(l[1..])[0] == Restored(l[1]);
      }
    }
  }

  // ---- When the tree comes back unchanged ----

  /** No CR in text, and no tab, CR or LF in values. */
  predicate Clean(t: Tree)
    decreases t, 0
  {
    match t
    case Text(data) => '\r' !in data
    case Tag(_, atts, kids) => CleanAtts(atts) && CleanAll(kids)
  }

  predicate CleanAll(l: seq<Tree>)
    decreases l, 0
  {
    l == [] || (Clean(l[0]) && CleanAll(l[1..]))
  }

  predicate CleanValue(s: string) { '\t' !in s && '\n' !in s && '\r' !in s }

  predicate CleanAtts(atts: seq<(string, string)>) { forall i :: 0 <= i < |atts| ==> CleanValue(atts[i].1) }

  lemma {:induction false} LineEndsSame(s: string)
    ensures |LineEnds(s)| <= |s| && (LineEnds(s) == s <==> '\r' !in s)
    decreases |s|
  {
    if s != "" {
      if s[0] == '\r' {
        LineEndsSame(if |s| > 1 && s[1] == '\n' then s[2..] else s[1..]);
        assert LineEnds(s)[0] == '\n';
      } else {
        LineEndsSame(s[1..]);
        assert LineEnds(s)[1..] == LineEnds(s[1..]);
        assert s == [s[0]] + s[1..];
      }
    }
  }

  lemma {:induction false} BlanksSame(s: string)
    ensures |Blanks(s)| <= |s| && (Blanks(s) == s <==> CleanValue(s))
    decreases |s|
  {
    if s != "" {
      if s[0] == '\r' && |s| > 1 && s[1] == '\n' {
        BlanksSame(s[2..]);
        assert Blanks(s)[0] == ' ';
      } else {
        BlanksSame(s[1..]);
        assert Blanks(s)[1..] == Blanks(s[1..]) && Blanks(s)[0] == if Blank(s[0]) then ' ' else s[0];
        assert s == [s[0]] + s[1..];
      }
    }
  }

  lemma {:induction false} BlankAttsSame(atts: seq<(string, string)>)
    ensures BlankAtts(atts) == atts <==> CleanAtts(atts)
  {
    BlankAttsAt(atts);
    forall i | 0 <= i < |atts| ensures BlankAtts(atts)[i] == atts[i] <==> CleanValue(atts[i].1) {
      BlanksSame(atts[i].1);
    }
  }

  lemma {:induction false} RestoredSame(t: Tree)
    ensures Restored(t) == t <==> Clean(t)
    decreases t, 0
  {
    match t
    case Text(data) => LineEndsSame(data);
    case Tag(name, atts, kids) =>
      BlankAttsSame(atts);
      RestoredAllSame(kids);
  }

  lemma {:induction false} RestoredAllSame(l: seq<Tree>)
    ensures RestoredAll(l) == l <==> CleanAll(l)
    decreases l, 0
  {
    hide Restored; hide Clean;
    if l != [] {
      RestoredSame(l[0]);
      RestoredAllSame(l[1..]);
      assert RestoredAll(l)[1..] == RestoredAll(l[1..]) && RestoredAll(l)[0] == Restored(l[0]);
      assert l == [l[0]] + l[1..];
    }
  }

  // ---- Documents ----

  /** The prolog ends at once, without a DTD. */
  ghost predicate StartsPlainly(env: Env, prolog: Prolog)
  {
    var a := env.role(prolog, InstanceStart, "");
    a.StartInstance? && a.prolog.dtd.elementAtts == map[]
  }

  lemma {:induction false} PrologPasses(env: Env, prolog: Prolog, t: Tree, f: bool)
    requires Utf8(env.enc) && StartsPlainly(env, prolog) && t.Tag? && Legal(env.enc, t)
    ensures ProcessProlog(env, prolog, Print(t), f) == In(env, Outermost(env), env.role(prolog, InstanceStart, "").prolog, [], Print(t), f)
  {
    hide Content; hide Scan; hide PrintAtts; hide PrintAll; hide NameRest; hide LegalAtts; hide LegalAll; hide Print;
    var w := Print(t);
    PrintStarts(t);
    assert PrologTok(env.enc, w) == Tok(InstanceStart, 0) by { RootSeen(env.enc, t); }
    assert w[..0] == "";
  }

  lemma {:induction false} RootSeen(enc: Encoding, t: Tree)
    requires Utf8(enc) && t.Tag? && Legal(enc, t)
    ensures PrologTok(enc, Print(t)) == Tok(InstanceStart, 0)
  {
    hide Scan; hide PrintAtts; hide PrintAll; hide NameRest; hide LegalAtts; hide LegalAll;
    var w := Print(t);
    assert |w| > 1 && w[0] == '<' && w[1] == t.name[0];
    TableFacts(enc);
  }

  /** What comes back: the text printed for a tree is parsed without error, whatever the chunks it is parsed in, and the
      callbacks build the tree with its white space normalized. */
  lemma {:induction false} PrintedParsed(env: Env, prolog: Prolog, t: Tree, chunks: seq<string>, last: string)
    requires RoleLaws(env) && Utf8(env.enc) && StartsPlainly(env, prolog)
    requires t.Tag? && Legal(env.enc, t) && Normal(t) && Concat(chunks) + last == Print(t)
    ensures var r := Parse(env, PrologPhase, prolog, [], "", chunks, last); var t' := Restored(t);
            t'.Tag? && r.outcome.Stopped? && r.events == EventsOf(t') && Build([], r.events) == [Frame(t'.name, t'.atts, t'.kids)]
  {
    hide RoleLaws; hide Utf8; hide In; hide Parse; hide Print; hide Legal; hide Normal; hide EventsOf; hide Epilog; hide Restored; hide RestoredBy;
    var p := env.role(prolog, InstanceStart, "").prolog;
    PrologPasses(env, prolog, t, true);
    TagParsed(env, Outermost(env), p, [], t, "", true);
    assert Print(t) + "" == Print(t) && "" + Print(t) == Print(t);
    EpilogAtEnd(env, p, [], true);
    ParseExtends(env, PrologPhase, prolog, [], "", chunks, last);
    RestoredPlain(p.dtd, t);
    RestoredNormal(t);
    BuildRebuilds(Restored(t));
  }

  /** The round trip gives the same tree exactly when there is no CR in its text and no tab, CR or LF in its values. */
  lemma {:induction false} RoundTrip(env: Env, prolog: Prolog, t: Tree, chunks: seq<string>, last: string)
    requires RoleLaws(env) && Utf8(env.enc) && StartsPlainly(env, prolog)
    requires t.Tag? && Legal(env.enc, t) && Normal(t) && Concat(chunks) + last == Print(t)
    ensures Build([], Parse(env, PrologPhase, prolog, [], "", chunks, last).events) == [Frame(t.name, t.atts, t.kids)] <==> Clean(t)
  {
    hide RoleLaws; hide Utf8; hide Parse; hide Print; hide Legal; hide Normal; hide Build; hide Restored; hide Clean;
    PrintedParsed(env, prolog, t, chunks, last);
    RestoredSame(t);
    var t' := Restored(t);
    assert t == Tree.Tag(t.name, t.atts, t.kids) && t' == Tree.Tag(t'.name, t'.atts, t'.kids);
    assert [Frame(t'.name, t'.atts, t'.kids)][0] == Frame(t'.name, t'.atts, t'.kids);
  }
}
