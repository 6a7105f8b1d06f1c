/**
 What XML 1.0 does not allow in content, and how it is refused: each is a fatal
 error wherever in the document it stands.
 */
module XmlRefused {
  import opened XmlScan
  import opened XmlTok
  import opened XmlAtts
  import opened XmlValue
  import opened XmlContent
  import opened XmlChunks
  import opened XmlNesting
  import opened XmlTree
  import opened XmlPrinted
  import opened XmlRoundTrip
  import opened XmlMarkup
  import opened XmlEntities
  import opened XmlLiterals
  import opened XmlProlog
  import opened XmlDocuments
  import opened XmlDeclarations
  import XmlDeclared
  import opened XmlDtd
  import opened XmlDoctype
  import opened XmlTags
  import opened XmlMeaning
  import opened XmlReports
  import XmlRole

  // ---- Text ----

  lemma {:induction false} NotText(enc: Encoding, rest: string)
    requires Utf8(enc) && (Close(rest) || Broken(enc, rest))
    ensures ContentTok(enc, rest).Invalid?
  {
    hide Scan; hide DataRun;
    Types(enc);
  }

  /** Text may not hold "]]>" (section 2.4), nor bytes that are no character (section 2.2). */
  lemma {:induction false} TextRefused(env: Env, at: Place, prolog: Prolog, tags: seq<string>, s: string, rest: string, f: bool)
    requires Utf8(at.enc) && PlainText(at.enc, s) && (Close(rest) || Broken(at.enc, rest))
    ensures In(env, at, prolog, tags, s + rest, f).outcome == Failed(InvalidToken)
  {
    hide In; hide Utf8; hide PlainText; hide Close; hide Broken; hide ContentTok;
    PlainParsed(env, at, prolog, tags, s, rest, f);
    NotText(at.enc, rest);
    InvalidOf(env, at, prolog, tags, rest, f);
  }

  // ---- Markup ----

  /** No character of a name is in front. */
  predicate NoName(enc: Encoding, w: string) { w != "" && !NameCase(enc, w).Take? && NameCase(enc, w) != Cut }

  predicate NoStart(enc: Encoding, w: string) { w != "" && !NmstrtCase(enc, w).Take? && NmstrtCase(enc, w) != Cut }

  lemma {:induction false} OpenersRejected(enc: Encoding, w: string)
    requires Utf8(enc) && |w| > 1 && NoStart(enc, w[1..])
    ensures w[0] == '<' && w[1] !in {'!', '?', '/'} ==> ContentTok(enc, w).Invalid?
    ensures w[0] == '&' && w[1] != '#' ==> ContentTok(enc, w).Invalid?
  {
    hide Scan; hide DataRun; hide NmstrtCase;
    Types(enc);
    OpenerTypes(enc, w[1]);
    assert enc.byteType('&') == Utf8Type('&');
    assert w[1..][0] == w[1];
    TagUnfold(enc, LtOpen, w, 1);
    RefUnfold(enc, RefOpen(InContent), w, 1);
  }

  lemma {:induction false} OpenerTypes(enc: Encoding, c: char)
    requires Utf8(enc)
    ensures (enc.byteType(c) == EXCL <==> c == '!') && (enc.byteType(c) == QUEST <==> c == '?') && (enc.byteType(c) == SOL <==> c == '/') && (enc.byteType(c) == NUM <==> c == '#')
  {
    if c != '\r' { assert enc.byteType(c) == Utf8Type(c); }
  }

  /** Neither "<" nor "&" may stand by itself. */
  lemma {:induction false} OpenerRefused(env: Env, at: Place, prolog: Prolog, tags: seq<string>, w: string, f: bool)
    requires Utf8(at.enc) && |w| > 1 && NoStart(at.enc, w[1..]) && ((w[0] == '<' && w[1] !in {'!', '?', '/'}) || (w[0] == '&' && w[1] != '#'))
    ensures In(env, at, prolog, tags, w, f) == Result([], Failed(InvalidToken))
  {
    hide In; hide Utf8; hide NoStart; hide ContentTok;
    OpenersRejected(at.enc, w);
    InvalidOf(env, at, prolog, tags, w, f);
  }

  /** A reference to an entity ends with ";". */
  lemma {:induction false} ReferenceRefused(env: Env, at: Place, prolog: Prolog, tags: seq<string>, name: string, rest: string, f: bool)
    requires Utf8(at.enc) && LegalName(at.enc, name) && NoName(at.enc, rest) && rest[0] != ';'
    ensures In(env, at, prolog, tags, "&" + (name + rest), f) == Result([], Failed(InvalidToken))
  {
    hide In; hide Utf8; hide NoName; hide LegalName; hide ContentTok; hide Scan;
    var w := "&" + (name + rest);
    ReferenceCut(at.enc, name, rest);
    InvalidOf(env, at, prolog, tags, w, f);
  }

  lemma {:induction false} ReferenceCut(enc: Encoding, name: string, rest: string)
    requires Utf8(enc) && LegalName(enc, name) && NoName(enc, rest) && rest[0] != ';'
    ensures ContentTok(enc, "&" + (name + rest)).Invalid?
  {
    hide ContentTok; hide Scan; hide LegalName; hide NoName; hide Utf8;
    AmpTok(enc, name + rest);
    ReferenceScan(enc, name, rest);
  }

  lemma {:induction false} AmpTok(enc: Encoding, u: string)
    requires Utf8(enc)
    ensures ContentTok(enc, "&" + u) == Scan(enc, RefOpen(InContent), "&" + u, 1)
  {
    hide Scan; hide DataRun;
    assert enc.byteType('&') == Utf8Type('&');
  }

  lemma {:induction false} ReferenceScan(enc: Encoding, name: string, rest: string)
    requires Utf8(enc) && LegalName(enc, name) && NoName(enc, rest) && rest[0] != ';'
    ensures Scan(enc, RefOpen(InContent), "&" + (name + rest), 1).Invalid?
  {
    assert rest != "";
    hide Step; hide StepRef; hide Scan; hide Passed; hide LegalName; hide NoName; hide XmlPrinted.At; hide Utf8;
    var w := "&" + (name + rest);
    AtWhole(w);
    AtParts(w, 0, "&", name + rest);
    AtParts(w, 1, name, rest);
    WholeName(enc, w, RefOpen(InContent), 1, name, 0, 0);
    AtFirst(w, 1 + |name|, rest);
    RefUnfold(enc, RefName(InContent), w, 1 + |name|);
    assert w[1 + |name|..] == rest;
    NameCutShort(enc, rest);
  }

  lemma {:induction false} AtWhole(w: string)
    ensures At(w, 0, w)
  {
  }

  lemma {:induction false} NameCutShort(enc: Encoding, rest: string)
    requires Utf8(enc) && NoName(enc, rest) && rest[0] != ';'
    ensures StepRef(enc, RefName(InContent), rest) == Reject(0)
  {
    hide NameCase;
    if rest[0] != '\r' { assert enc.byteType(rest[0]) == Utf8Type(rest[0]); }
  }

  // ---- Tags ----

  /** An end tag names the element it ends (section 3, well-formedness constraint "Element Type Match"), in the same entity
      (section 4.3.2). */
  lemma {:induction false} EndTagRefused(env: Env, at: Place, prolog: Prolog, tags: seq<string>, name: string, rest: string, f: bool)
    requires Utf8(at.enc) && LegalName(at.enc, name) && (|tags| == at.base || tags == [] || tags[|tags| - 1] != name)
    ensures In(env, at, prolog, tags, CloseTag(name) + rest, f) == Result([], Failed(if |tags| == at.base || tags == [] then AsyncEntity else TagMismatch))
  {
    hide Utf8; hide LegalName; hide CloseTag; hide ContentTok; hide NameAt; hide Content; hide Cdata; hide Epilog; hide Expand; hide XmlContent.Tag;
    var tag := CloseTag(name);
    var w := tag + rest;
    CloseTagTok(at.enc, name, rest);
    CloseTagName(at.enc, name);
    assert w[..|tag|] == tag && w[|tag|..] == rest;
    ContentOfToken(env, prolog, at.open, at.enc, at.base, tags, w, f);
  }

  /** The end of the document, or of the text of an entity, inside an element. */
  lemma {:induction false} EndRefused(env: Env, at: Place, prolog: Prolog, tags: seq<string>)
    requires at.base != |tags|
    ensures In(env, at, prolog, tags, "", true) == Result([], Failed(if at.base == 0 then NoElements else AsyncEntity))
  {
    hide ContentTok;
    NothingLeft(at.enc);
    EndsIn(env, at, prolog, tags, "");
  }

  /** A start tag up to the last of some attributes. */
  function TagFront(name: string, atts: seq<(string, string)>): string { "<" + (name + PrintAtts(atts)) }

  lemma {:induction false} AttsThrough(enc: Encoding, s: string, q: State, p: nat, atts: seq<(string, string)>)
    requires Utf8(enc) && Behind(q) && LegalAtts(enc, atts) && At(s, p, PrintAtts(atts))
    ensures p + |PrintAtts(atts)| <= |s| && Scan(enc, q, s, p) == Scan(enc, if atts == [] then q else AttValueEnd, s, p + |PrintAtts(atts)|)
    decreases |atts|
  {
    hide Step; hide Scan; hide Passed; hide Utf8; hide LegalName; hide LegalText; hide PrintAtt;
    if atts != [] {
      hide PrintAtts;
      PrintAttsFirst(atts);
      AtParts(s, p, PrintAtt(atts[0]), PrintAtts(atts[1..]));
      AttScan(enc, s, q, p, atts[0], 0, 0);
      AttsThrough(enc, s, AttValueEnd, p + |PrintAtt(atts[0])|, atts[1..]);
    }
  }

  lemma {:induction false} FrontScan(enc: Encoding, name: string, atts: seq<(string, string)>, rest: string)
    requires Utf8(enc) && LegalName(enc, name) && LegalAtts(enc, atts) && rest != ""
    ensures var w := TagFront(name, atts) + rest; var p := |TagFront(name, atts)|;
            p < |w| && w[p..] == rest && ContentTok(enc, w) == Scan(enc, if atts == [] then TagName else AttValueEnd, w, p)
  {
    hide Step; hide Scan; hide Passed; hide Utf8; hide LegalName; hide PrintAtts; hide LegalAtts; hide NmstrtCase; hide NameRest; hide DataRun;
    Types(enc);
    var w := TagFront(name, atts) + rest;
    assert w == "<" + (name + (PrintAtts(atts) + rest));
    AtWhole(w);
    AtParts(w, 0, "<", name + (PrintAtts(atts) + rest));
    AtParts(w, 1, name, PrintAtts(atts) + rest);
    AtParts(w, 1 + |name|, PrintAtts(atts), rest);
    WholeName(enc, w, LtOpen, 1, name, 0, 0);
    AttsThrough(enc, w, TagName, 1 + |name|, atts);
  }

  /** What cannot go on behind an attribute, or behind the name: only white space, ">" and "/>" can. */
  predicate NoTagEnd(enc: Encoding, atts: seq<(string, string)>, rest: string)
  {
    && rest != "" && rest[0] !in {' ', '\t', '\n', '\r', '/', '>'} && (atts == [] ==> NoName(enc, rest))
  }

  /** Attributes are set off by white space, and values end with their quote (productions 40 and 44). */
  lemma {:induction false} TagRefused(env: Env, at: Place, prolog: Prolog, tags: seq<string>, name: string, atts: seq<(string, string)>, rest: string, f: bool)
    requires Utf8(at.enc) && LegalName(at.enc, name) && LegalAtts(at.enc, atts) && NoTagEnd(at.enc, atts, rest)
    ensures In(env, at, prolog, tags, TagFront(name, atts) + rest, f) == Result([], Failed(InvalidToken))
  {
    assert rest != "";
    hide In; hide Utf8; hide LegalName; hide LegalAtts; hide TagFront; hide ContentTok; hide Scan; hide Step; hide NoTagEnd;
    var w, p := TagFront(name, atts) + rest, |TagFront(name, atts)|;
    FrontScan(at.enc, name, atts, rest);
    NoTagEndRejected(at.enc, atts, rest);
    ScanUnfold(at.enc, if atts == [] then TagName else AttValueEnd, w, p);
    InvalidOf(env, at, prolog, tags, w, f);
  }

  lemma {:induction false} NoTagEndRejected(enc: Encoding, atts: seq<(string, string)>, rest: string)
    requires Utf8(enc) && NoTagEnd(enc, atts, rest)
    ensures rest != "" && Step(enc, if atts == [] then TagName else AttValueEnd, rest) == Reject(0)
  {
    hide Step; hide NameCase;
    StepBy(enc, TagName, rest);
    StepBy(enc, AttValueEnd, rest);
    assert rest[0] != '\r' && enc.byteType(rest[0]) == Utf8Type(rest[0]);
  }

  lemma {:induction false} ToName(enc: Encoding, name: string, atts: seq<(string, string)>, att: string, rest: string)
    requires Utf8(enc) && LegalName(enc, name) && LegalAtts(enc, atts) && LegalName(enc, att)
    ensures var w := TagFront(name, atts) + (" " + (att + rest)); var p := |TagFront(name, atts)| + 1 + |att|;
            p <= |w| && w[p..] == rest && ContentTok(enc, w) == Scan(enc, AttName, w, p)
  {
    hide Step; hide Scan; hide Passed; hide Utf8; hide LegalName; hide LegalAtts; hide TagFront; hide ContentTok;
    var front := TagFront(name, atts);
    var w, p := front + (" " + (att + rest)), |front|;
    FrontScan(enc, name, atts, " " + (att + rest));
    AtWhole(w);
    AtParts(w, 0, front, " " + (att + rest));
    AtParts(w, p, " ", att + rest);
    AtParts(w, p + 1, att, rest);
    AtFirst(w, p, " ");
    var q := if atts == [] then TagName else AttValueEnd;
    TagMoves(enc, q, w[p..]);
    Goes(enc, w, q, p, 0, 0);
    WholeName(enc, w, XmlPrinted.Inside(q), p + 1, att, 0, 0);
  }

  /** Behind the name of an attribute, what is no "=" with a quote behind it. */
  predicate NoValue(enc: Encoding, rest: string)
  {
    && rest != ""
    && if rest[0] == '=' then |rest| > 1 && rest[1] !in {' ', '\t', '\n', '\r', '\'', '\"'} else NoName(enc, rest) && rest[0] !in {' ', '\t', '\n', '\r'}
  }

  /** An attribute has a value, and the value is quoted (productions 10 and 41). */
  lemma {:induction false} AttributeRefused(env: Env, at: Place, prolog: Prolog, tags: seq<string>, name: string, atts: seq<(string, string)>, att: string, rest: string, f: bool)
    requires Utf8(at.enc) && LegalName(at.enc, name) && LegalAtts(at.enc, atts) && LegalName(at.enc, att) && NoValue(at.enc, rest)
    ensures In(env, at, prolog, tags, TagFront(name, atts) + (" " + (att + rest)), f) == Result([], Failed(InvalidToken))
  {
    hide In; hide Utf8; hide LegalName; hide LegalAtts; hide TagFront; hide ContentTok; hide Scan; hide Step; hide NoName;
    var w, p := TagFront(name, atts) + (" " + (att + rest)), |TagFront(name, atts)| + 1 + |att|;
    ToName(at.enc, name, atts, att, rest);
    NoValueRejected(at.enc, rest);
    ScanUnfold(at.enc, AttName, w, p);
    if rest[0] == '=' {
      assert w[p + 1..] == rest[1..];
      ScanUnfold(at.enc, AttEq, w, p + 1);
    }
    InvalidOf(env, at, prolog, tags, w, f);
  }

  lemma {:induction false} NoValueRejected(enc: Encoding, rest: string)
    requires Utf8(enc) && rest != ""
    ensures rest[0] == '=' ==> Step(enc, AttName, rest) == Go(1, AttEq)
    ensures rest[0] == '=' && |rest| > 1 && rest[1] !in {' ', '\t', '\n', '\r', '\'', '\"'} ==> Step(enc, AttEq, rest[1..]) == Reject(0)
    ensures rest[0] != '=' && NoName(enc, rest) && rest[0] !in {' ', '\t', '\n', '\r'} ==> Step(enc, AttName, rest) == Reject(0)
  {
    hide Step; hide NameCase;
    StepBy(enc, AttName, rest);
    if rest[0] != '\r' { assert enc.byteType(rest[0]) == Utf8Type(rest[0]); }
    if rest[0] == '=' {
      AttMoves(enc, rest);
      if |rest| > 1 {
        StepBy(enc, AttEq, rest[1..]);
        if rest[1] != '\r' { assert enc.byteType(rest[1]) == Utf8Type(rest[1]); }
      }
    }
  }

  /** No "<" in a value (well-formedness constraint "No < in Attribute Values"). */
  lemma {:induction false} ValueRefused(env: Env, at: Place, prolog: Prolog, tags: seq<string>, name: string, atts: seq<(string, string)>, att: string, v: string, rest: string, f: bool)
    requires Utf8(at.enc) && LegalName(at.enc, name) && LegalAtts(at.enc, atts) && LegalName(at.enc, att) && LegalText(at.enc, v)
    ensures In(env, at, prolog, tags, TagFront(name, atts) + (" " + (att + ("='" + (Escape(v) + ("<" + rest))))), f) == Result([], Failed(InvalidToken))
  {
    hide In; hide Utf8; hide LegalName; hide LegalAtts; hide TagFront; hide ContentTok; hide Scan; hide Step; hide Escape; hide LegalText; hide Passed;
    var enc, tail := at.enc, "='" + (Escape(v) + ("<" + rest));
    var w, p := TagFront(name, atts) + (" " + (att + tail)), |TagFront(name, atts)| + 1 + |att|;
    ToName(enc, name, atts, att, tail);
    assert At(w, p, tail);
    AtParts(w, p, "='", Escape(v) + ("<" + rest));
    AtParts(w, p, "=", "'") by { assert "='" == "=" + "'"; }
    EqualsScan(enc, w, p, 0, 0);
    AtParts(w, p + 2, Escape(v), "<" + rest);
    ValueScan(enc, w, p + 2, v, 0, 0);
    var k := p + 2 + |Escape(v)|;
    AtFirst(w, k, "<" + rest);
    LtInValue(enc, w[k..]);
    ScanUnfold(enc, IN_QUOTES, w, k);
    InvalidOf(env, at, prolog, tags, w, f);
  }

  lemma {:induction false} LtInValue(enc: Encoding, w: string)
    requires Utf8(enc) && w != "" && w[0] == '<'
    ensures Step(enc, IN_QUOTES, w) == Reject(0)
  {
    hide Step;
    StepBy(enc, IN_QUOTES, w);
    Types(enc);
  }

  // ---- Comments and instructions ----

  /** No "--" in a comment (section 2.5). */
  lemma {:induction false} RemarkRefused(env: Env, at: Place, prolog: Prolog, tags: seq<string>, s: string, rest: string, f: bool)
    requires Utf8(at.enc) && LegalText(at.enc, s) && NoDashes(s) && rest != "" && rest[0] != '>'
    ensures In(env, at, prolog, tags, "<!--" + (s + ("--" + rest)), f) == Result([], Failed(InvalidToken))
  {
    hide In; hide Utf8; hide LegalText; hide NoDashes; hide ContentTok; hide Scan; hide StepOther; hide At;
    var enc, w := at.enc, "<!--" + (s + ("--" + rest));
    AtWhole(w);
    AtParts(w, 0, "<!--", s + ("--" + rest));
    AtParts(w, 4, s, "--" + rest);
    assert w[0] == '<' && w[1] == '!' && w[2] == '-' && w[3] == '-' && w[3..][0] == '-';
    ExclMoves(enc, w);
    OtherUnfold(enc, CommentOpen, w, 3);
    CommentMoves(enc, w[3..]);
    CommentThrough(enc, w, 4, s);
    DashesRejected(enc, w, 4 + |s|, rest);
    InvalidOf(env, at, prolog, tags, w, f);
  }

  lemma {:induction false} DashesRejected(enc: Encoding, w: string, p: nat, rest: string)
    requires Utf8(enc) && At(w, p, "--" + rest) && rest != "" && rest[0] != '>'
    ensures p <= |w| && Scan(enc, CommentBody, w, p).Invalid?
  {
    hide Scan; hide StepOther; hide Utf8;
    IsIn(w, p, "--" + rest);
    AtFirst(w, p, "--" + rest);
    assert w[p + 1] == '-' && w[p + 2] == rest[0];
    CommentMoves(enc, w[p..]);
    CommentMoves(enc, w[p + 1..]);
    OtherUnfold(enc, CommentBody, w, p);
    OtherUnfold(enc, CommentMinus, w, p + 1);
    OtherUnfold(enc, CommentMinusMinus, w, p + 2);
    assert w[p + 2..][0] != '>';
    NoCommentEnd(enc, w[p + 2..]);
  }

  lemma {:induction false} NoCommentEnd(enc: Encoding, w: string)
    requires w != "" && w[0] != '>'
    ensures StepOther(enc, CommentMinusMinus, w) == Reject(0)
  {
  }

  /** The XML declaration is at the very start or nowhere (section 2.8). */
  lemma {:induction false} DeclarationRefused(env: Env, at: Place, prolog: Prolog, tags: seq<string>, s: string, rest: string, f: bool)
    requires Utf8(at.enc) && LegalText(at.enc, s) && NoEnd(s)
    ensures In(env, at, prolog, tags, Instruction("xml", s) + rest, f) == Result([], Failed(MisplacedXmlPi))
  {
    hide In; hide Utf8; hide LegalText; hide NoEnd; hide ContentTok; hide Instruction;
    var w := Instruction("xml", s) + rest;
    assert AnyTarget(at.enc, "xml") && PiToken("xml") == XmlDecl;
    InstructionTok(at.enc, "xml", s, rest);
    MisplacedHere(env, at, prolog, tags, w, f);
  }

  lemma {:induction false} MisplacedHere(env: Env, at: Place, prolog: Prolog, tags: seq<string>, w: string, f: bool)
    requires ContentTok(at.enc, w).Tok? && ContentTok(at.enc, w).tok == XmlDecl
    ensures In(env, at, prolog, tags, w, f) == Result([], Failed(MisplacedXmlPi))
  {
    hide ContentTok; hide Cdata; hide Epilog; hide Expand; hide XmlContent.Tag; hide Content;
    ContentOfToken(env, prolog, at.open, at.enc, at.base, tags, w, f);
  }

  // ---- Anywhere ----

  /** What is wrong, with the bytes behind it. */
  datatype Flaw =
    | InText(text: string, rest: string)
    | Opener(rest: string)
    | OpenReference(name: string, rest: string)
    | OtherEnd(name: string, rest: string)
    | InTag(name: string, atts: seq<(string, string)>, rest: string)
    | InAttribute(name: string, atts: seq<(string, string)>, att: string, rest: string)
    | LtInValue(name: string, atts: seq<(string, string)>, att: string, value: string, rest: string)
    | DashesIn(text: string, rest: string)
    | Misplaced(text: string, rest: string)
    | Unclosed

  function FlawText(x: Flaw): string
  {
    match x
    case InText(s, rest) => s + rest
    case Opener(rest) => rest
    case OpenReference(name, rest) => "&" + (name + rest)
    case OtherEnd(name, rest) => CloseTag(name) + rest
    case InTag(name, atts, rest) => TagFront(name, atts) + rest
    case InAttribute(name, atts, att, rest) => TagFront(name, atts) + (" " + (att + rest))
    case LtInValue(name, atts, att, value, rest) => TagFront(name, atts) + (" " + (att + ("='" + (Escape(value) + ("<" + rest)))))
    case DashesIn(s, rest) => "<!--" + (s + ("--" + rest))
    case Misplaced(s, rest) => Instruction("xml", s) + rest
    case Unclosed => ""
  }

  /** Inside an element `open`, section by section of XML 1.0: 2.4 and 2.2, 2.4, 4.1, 3, 3.1, 3.1, 3.1, 2.5, 2.8 and 2.1. */
  predicate Flawed(enc: Encoding, open: string, x: Flaw)
  {
    match x
    case InText(s, rest) => PlainText(enc, s) && (Close(rest) || Broken(enc, rest))
    case Opener(w) => |w| > 1 && NoStart(enc, w[1..]) && ((w[0] == '<' && w[1] !in {'!', '?', '/'}) || (w[0] == '&' && w[1] != '#'))
    case OpenReference(name, rest) => LegalName(enc, name) && NoName(enc, rest) && rest[0] != ';'
    case OtherEnd(name, _) => LegalName(enc, name) && name != open
    case InTag(name, atts, rest) => LegalName(enc, name) && LegalAtts(enc, atts) && NoTagEnd(enc, atts, rest)
    case InAttribute(name, atts, att, rest) => LegalName(enc, name) && LegalAtts(enc, atts) && LegalName(enc, att) && NoValue(enc, rest)
    case LtInValue(name, atts, att, value, _) => LegalName(enc, name) && LegalAtts(enc, atts) && LegalName(enc, att) && LegalText(enc, value)
    case DashesIn(s, rest) => LegalText(enc, s) && NoDashes(s) && rest != "" && rest[0] != '>'
    case Misplaced(s, _) => LegalText(enc, s) && NoEnd(s)
    case Unclosed => true
  }

  lemma {:induction false} FlawRefused(env: Env, at: Place, prolog: Prolog, tags: seq<string>, x: Flaw)
    requires Utf8(at.enc) && tags != [] && at.base < |tags| && Flawed(at.enc, tags[|tags| - 1], x)
    ensures In(env, at, prolog, tags, FlawText(x), true).outcome.Failed?
  {
    hide In; hide Utf8; hide LegalName; hide LegalAtts; hide PlainText; hide Close; hide Broken; hide NoStart; hide NoName; hide NoTagEnd; hide NoValue; hide NoDashes; hide NoEnd; hide LegalText;
    hide CloseTag; hide TagFront; hide Instruction; hide Escape;
    match x
    case InText(s, rest) => TextRefused(env, at, prolog, tags, s, rest, true);
    case Opener(w) => OpenerRefused(env, at, prolog, tags, w, true);
    case OpenReference(name, rest) => ReferenceRefused(env, at, prolog, tags, name, rest, true);
    case OtherEnd(name, rest) => EndTagRefused(env, at, prolog, tags, name, rest, true);
    case InTag(name, atts, rest) => TagRefused(env, at, prolog, tags, name, atts, rest, true);
    case InAttribute(name, atts, att, rest) => AttributeRefused(env, at, prolog, tags, name, atts, att, rest, true);
    case LtInValue(name, atts, att, value, rest) => ValueRefused(env, at, prolog, tags, name, atts, att, value, rest, true);
    case DashesIn(s, rest) => RemarkRefused(env, at, prolog, tags, s, rest, true);
    case Misplaced(s, rest) => DeclarationRefused(env, at, prolog, tags, s, rest, true);
    case Unclosed => EndRefused(env, at, prolog, tags);
  }

  /** Open elements, each with the content in front of the next. */
  type Path = seq<(StartTag, seq<Item>)>

  function PathTags(path: Path): seq<string> { seq(|path|, i requires 0 <= i < |path| => path[i].0.name) }

  function PathText(path: Path): string
  {
    if path == [] then "" else StartText(path[0].0) + (AllWritten(path[0].1) + PathText(path[1..]))
  }

  ghost predicate PathRight(enc: Encoding, path: Path)
  {
    forall i :: 0 <= i < |path| ==> LegalStart(enc, path[i].0) && !path[i].0.empty && AllRight(enc, path[i].1)
  }

  lemma {:induction false} PathMeets(path: Path, bad: string, f: bool)
    requires path != [] && Meets(path[|path| - 1].1, bad, f)
    ensures Meets(path[0].1, PathText(path[1..]) + bad, f)
  {
    hide AllWritten; hide AttsText;
    if |path| == 1 { assert PathText(path[1..]) + bad == bad; } else { assert (PathText(path[1..]) + bad)[0] == '<'; }
  }

  /** What is refused behind the open elements is refused, whatever is in front. */
  lemma {:induction false} PathRefused(env: Env, at: Place, prolog: Prolog, tags: seq<string>, texts: Texts, path: Path, bad: string, f: bool)
    requires Utf8(at.enc) && Utf8(env.internal) && Backed(env.internal, prolog.dtd, texts) && Whole(env.internal, prolog.dtd) && PathRight(at.enc, path) && at.base <= |tags|
    requires path != [] ==> Meets(path[|path| - 1].1, bad, f)
    requires In(env, at, prolog, tags + PathTags(path), bad, f).outcome.Failed?
    ensures In(env, at, prolog, tags, PathText(path) + bad, f).outcome.Failed?
    decreases |path|
  {
    hide In; hide Utf8; hide LegalStart; hide AllRight; hide StartText; hide AllWritten; hide Backed; hide Meets; hide AllMean; hide StartMeans; hide Whole;
    if path == [] {
      assert tags + PathTags(path) == tags && PathText(path) + bad == bad;
    } else {
      var (tag, l) := path[0];
      var more := PathText(path[1..]) + bad;
      assert tags + PathTags(path) == tags + [tag.name] + PathTags(path[1..]);
      PathRefused(env, at, prolog, tags + [tag.name], texts, path[1..], bad, f);
      PathMeets(path, bad, f);
      assert PathText(path) + bad == StartText(tag) + (AllWritten(l) + more);
      StartParsed(env, at, prolog, tags, tag, AllWritten(l) + more, f);
      ItemsRead(env, at, prolog, tags + [tag.name], texts, l, more, f);
    }
  }

  lemma {:induction false} PathStarts(enc: Encoding, path: Path, bad: string)
    requires PathRight(enc, path) && path != []
    ensures var w := PathText(path) + bad; |w| > 1 && w[0] == '<' && NmstrtCase(enc, w[1..]).Take?
  {
    hide AttsText; hide AllWritten; hide NameRest; hide LegalSpelled; hide AllRight; hide NmstrtCase;
    var w, name := PathText(path) + bad, path[0].0.name;
    var rest := w[1 + |name|..];
    assert w == "<" + (name + rest);
    assert w[1..] == name + rest;
    XmlScan.CharCasesStable(enc, name, rest);
  }

  /** A flaw anywhere inside the root, at any depth and behind any content, is a fatal error, in whatever chunks the document comes. */
  lemma {:induction false} DocumentRefused(r: Reader, before: Lexemes, name: string, id: Option<ExternalId>, l: seq<Declaration>, between: Lexemes, texts: Texts,
                                           path: Path, x: Flaw, chunks: seq<string>, last: string)
    requires Utf8(r.enc) && r.enc.byteType('\r') == CR && Utf8(r.internal) && XmlDeclared.AllLegal(r.enc, l) && XmlDeclared.Fitting(l) && Front(before) && Asides(between)
    requires AllFits(r.enc, before + Doctype(name, id, l) + between)
    requires DtdOf(r, before, id, l).Some? ==> Backed(r.internal, Known(DtdOf(r, before, id, l).value, id), texts)
    requires path != [] && PathRight(r.enc, path) && Meets(path[|path| - 1].1, FlawText(x), true) && Flawed(r.enc, path[|path| - 1].0.name, x)
    requires Concat(chunks) + last == Spread(before + Doctype(name, id, l) + between) + (PathText(path) + FlawText(x))
    ensures ParseOf(r, NO_DTD, chunks, last).outcome.Failed?
  {
    hide *;
    var env, body := ReaderEnv(r), PathText(path) + FlawText(x);
    var all := before + Doctype(name, id, l) + between;
    ReaderLaws(r);
    PathStarts(r.enc, path, FlawText(x));
    ParseIsOne(r, Spread(all) + body, chunks, last);
    if DtdOf(r, before, id, l).Some? {
      var p := PrologParsed(r, before, name, id, l, between, body);
      EnvOf(r);
      PathTagsEnd(path);
      FlawRefused(env, Outermost(env), p, PathTags(path), x);
      assert [] + PathTags(path) == PathTags(path);
      PathRefused(env, Outermost(env), p, [], texts, path, FlawText(x), true);
    } else {
      PrologRefused(r, before, name, id, l, between, body);
    }
  }

  lemma {:induction false} EnvOf(r: Reader)
    ensures var env := ReaderEnv(r); env.enc == r.enc && env.internal == r.internal && Outermost(env) == Place({}, r.enc, 0)
  {
  }

  lemma {:induction false} PathTagsEnd(path: Path)
    requires path != []
    ensures |PathTags(path)| == |path| && PathTags(path)[|path| - 1] == path[|path| - 1].0.name
  {
  }

  /** A document in chunks is parsed as if it came in one. */
  lemma {:induction false} ParseIsOne(r: Reader, w: string, chunks: seq<string>, last: string)
    requires Concat(chunks) + last == w
    ensures var p := ProcessProlog(ReaderEnv(r), Initial(NO_DTD), w, true);
            ParseOf(r, NO_DTD, chunks, last).outcome.Failed? == p.outcome.Failed?
  {
    hide XmlChunks.Parse; hide ProcessProlog; hide RoleLaws; hide Turn; hide NO_DTD;
    ReaderLaws(r);
    ParseExtends(ReaderEnv(r), PrologPhase, Initial(NO_DTD), [], "", chunks, last);
    assert "" + w == w;
  }

  // ---- Outside the root ----

  /** Behind the root nothing but comments, instructions and white space may stand. */
  lemma {:induction false} JunkRefused(env: Env, prolog: Prolog, x: XmlRole.Lexeme, rest: string, f: bool)
    requires Utf8(env.enc) && Fits(env.enc, x) && x.tok != Comment && x.tok != Pi
    ensures Epilog(env, prolog, [], x.text + (" " + rest), f) == Result([], Failed(JunkAfterDocElement))
  {
    hide Utf8; hide Fits; hide PrologTok;
    AnyToken(env.enc, x, rest);
    FitsNoSpace(env.enc, x);
  }

  lemma {:induction false} FitsNoSpace(enc: Encoding, x: XmlRole.Lexeme)
    requires Fits(enc, x)
    ensures x.tok != PrologS
  {
  }

  /** In the internal subset no literal may refer to a parameter entity (well-formedness constraint "PEs in Internal Subset"). */
  lemma {:induction false} PercentRefused(enc: Encoding, name: string, rest: string)
    requires Utf8(enc) && LegalName(enc, name)
    ensures EntityValue(enc, "%" + (name + (";" + rest))) == ValueError(Syntax)
  {
    hide EntityValueTok;
    PercentTok(enc, name, rest);
  }

  lemma {:induction false} PercentTok(enc: Encoding, name: string, rest: string)
    requires Utf8(enc) && LegalName(enc, name)
    ensures var w := "%" + (name + (";" + rest)); EntityValueTok(enc, w) == Tok(ParamEntityRef, |name| + 2)
  {
    hide PrologTok; hide Utf8; hide LegalName; hide Scan;
    ParameterToken(enc, name, rest);
    PercentScan(enc, "%" + (name + (";" + rest)));
  }

  lemma {:induction false} PercentScan(enc: Encoding, w: string)
    requires Utf8(enc) && w != "" && w[0] == '%'
    ensures EntityValueTok(enc, w) == PrologTok(enc, w)
  {
    hide Scan; hide EntityValueRun;
    assert enc.byteType('%') == Utf8Type('%');
  }
}
