/**
 How the tokenizer reads printed text: names, escaped values, and the start
 tag with its attributes (UTF-8 table of libjabber/asciitab.h and
 libjabber/utf8tab.h).
 */
module XmlPrinted {
  import opened XmlScan
  import opened XmlTok
  import opened XmlAtts
  import opened XmlValue
  import opened XmlTree
  import opened XmlPool

  // ---- The UTF-8 table ----

  /** asciitab.h, with the colon as a name character: namespace processing is not compiled in. */
  function AsciiType(c: char): ByteType
  {
    if 'A' <= c <= 'F' || 'a' <= c <= 'f' then HEX
    else if 'G' <= c <= 'Z' || 'g' <= c <= 'z' then NMSTRT
    else if '0' <= c <= '9' then DIGIT
    else
      match c
      case '\t' | ' ' => S
      case '\n' => LF
      case '\r' => CR
      case '!' => EXCL
      case '\"' => QUOT
      case '#' => NUM
      case '%' => PERCNT
      case '&' => AMP
      case '\'' => APOS
      case '(' => LPAR
      case ')' => RPAR
      case '*' => AST
      case '+' => PLUS
      case ',' => COMMA
      case '-' => MINUS
      case '.' => NAME
      case '/' => SOL
      case ':' | '_' => NMSTRT
      case ';' => SEMI
      case '<' => LT
      case '=' => EQUALS
      case '>' => GT
      case '?' => QUEST
      case '[' => LSQB
      case ']' => RSQB
      case '|' => VERBAR
      case _ => if c < ' ' then NONXML else OTHER
  }

  function Utf8Type(c: char): ByteType
  {
    var n := c as int;
    if n < 0x80 then AsciiType(c)
    else if n < 0xC0 then TRAIL
    else if n < 0xE0 then LEAD2
    else if n < 0xF0 then LEAD3
    else if n < 0xF5 then LEAD4
    else if n < 0xFE then NONXML
    else MALFORM
  }

  /** The table for documents, or that for the text of entities (iasciitab.h), where a CR is white space like any other. */
  ghost predicate Utf8(enc: Encoding)
  {
    (forall c: char :: c != '\r' ==> enc.byteType(c) == Utf8Type(c)) && (enc.byteType('\r') == CR || enc.byteType('\r') == S)
  }

  /** Of ASCII the tables take for names, white space and characters what productions 2 to 5 of XML 1.0 say. */
  lemma {:induction false} AsciiClasses(enc: Encoding, c: char)
    requires Utf8(enc) && c as int < 0x80
    ensures NmstrtCase(enc, [c]).Take? <==> 'a' <= c <= 'z' || 'A' <= c <= 'Z' || c == '_' || c == ':'
    ensures NameCase(enc, [c]).Take? <==> 'a' <= c <= 'z' || 'A' <= c <= 'Z' || '0' <= c <= '9' || c == '_' || c == ':' || c == '-' || c == '.'
    ensures Space(enc.byteType(c)) <==> c == ' ' || c == '\t' || c == '\n' || c == '\r'
    ensures InvalidCase(enc, [c]) == Bad <==> c < ' ' && c != '\t' && c != '\n' && c != '\r'
  {
    if c != '\r' { assert enc.byteType(c) == Utf8Type(c); }
  }

  // ---- What may be printed ----

  predicate NameRest(enc: Encoding, s: string)
  {
    s == "" || (NameCase(enc, s).Take? && NameRest(enc, s[NameCase(enc, s).n..]))
  }

  predicate LegalName(enc: Encoding, s: string)
  {
    s != "" && NmstrtCase(enc, s).Take? && NameRest(enc, s[NmstrtCase(enc, s).n..])
  }

  predicate Trails(s: string, n: nat) { forall i :: 0 < i < n && i < |s| ==> s[i] as int >= 0x80 }

  /** The length of the character in front, or 0 where XML does not allow one; a CR only where it is the end of a line. */
  function LegalChar(enc: Encoding, s: string): (n: nat)
    requires s != ""
    ensures n <= |s|
  {
    match InvalidCase(enc, s)
    case Take(n) => if Trails(s, n) then n else 0
    case NotListed => if s[0] == '\r' && enc.byteType('\r') != CR then 0 else 1
    case _ => 0
  }

  /** Characters XML allows, none of which is a byte the parser takes for another. */
  predicate LegalText(enc: Encoding, s: string)
  {
    s == "" || (LegalChar(enc, s) > 0 && LegalText(enc, s[LegalChar(enc, s)..]))
  }

  predicate LegalAtts(enc: Encoding, atts: seq<(string, string)>)
  {
    forall i :: 0 <= i < |atts| ==> LegalName(enc, atts[i].0) && LegalText(enc, atts[i].1)
  }

  // ---- Moves ----

  /** From `q` at `p` the scanner comes to `q'` at `p'`, having passed no attribute on the way. */
  ghost predicate Leads(enc: Encoding, s: string, q: State, p: nat, name: nat, value: nat, q': State, p': nat, name': nat, value': nat)
    requires p <= |s| && p' <= |s|
  {
    && Scan(enc, q, s, p) == Scan(enc, q', s, p')
    && Passed(enc, q, s, p, name, value) == Passed(enc, q', s, p', name', value')
  }

  lemma {:induction false} Goes(enc: Encoding, s: string, q: State, p: nat, name: nat, value: nat)
    requires p < |s| && Step(enc, q, s[p..]).Go? && !Step(enc, q, s[p..]).q.AttValueEnd?
    ensures var a := Step(enc, q, s[p..]);
            Leads(enc, s, q, p, name, value, a.q, p + a.n, NameAfter(q, a.q, p, name), ValueAfter(q, a.q, p + a.n, value))
  {
    hide Step; hide Scan; hide Passed;
    var a := Step(enc, q, s[p..]);
    ScanUnfold(enc, q, s, p);
    PassedStep(enc, q, s, p, name, value);
    var rest := Passed(enc, a.q, s, p + a.n, NameAfter(q, a.q, p, name), ValueAfter(q, a.q, p + a.n, value));
    assert [] + rest == rest;
  }

  /** `part` stands at position `p`. */
  predicate At(s: string, p: nat, part: string) { p + |part| <= |s| && s[p..p + |part|] == part }

  lemma {:induction false} AtParts(s: string, p: nat, a: string, b: string)
    requires At(s, p, a + b)
    ensures At(s, p, a) && At(s, p + |a|, b)
  {
    assert s[p..p + |a|] == (a + b)[..|a|] && s[p + |a|..p + |a| + |b|] == (a + b)[|a|..];
  }

  lemma {:induction false} AtFirst(s: string, p: nat, part: string)
    requires At(s, p, part) && part != ""
    ensures p < |s| && s[p..][0] == s[p] == part[0] && At(s, p + 1, part[1..]) && s[p..] == part + s[p + |part|..]
  {
    assert s[p..p + |part|][0] == part[0];
    AtParts(s, p, part[..1], part[1..]);
    assert part == part[..1] + part[1..];
  }

  lemma {:induction false} AtHead(s: string, p: nat, part: string)
    requires At(s, p, part) && part != ""
    ensures p < |s| && s[p] == part[0]
  {
    assert s[p..p + |part|][0] == part[0];
  }

  /** The states that take name characters over and over. */
  predicate NameLoop(q: State) { q.TagName? || q.EndTagName? || q.AttName? || q.RefName? }

  lemma {:induction false} NameStep(enc: Encoding, q: State, w: string)
    requires w != "" && NameLoop(q) && NameCase(enc, w).Take?
    ensures Step(enc, q, w) == Go(NameCase(enc, w).n, q)
  {
    hide Step; hide NameCase; hide NmstrtCase; hide InvalidCase;
    StepBy(enc, q, w);
  }

  lemma {:induction false} NameScan(enc: Encoding, s: string, q: State, p: nat, part: string, name: nat, value: nat)
    requires At(s, p, part) && NameLoop(q) && NameRest(enc, part)
    ensures Leads(enc, s, q, p, name, value, q, p + |part|, name, value)
    decreases |part|
  {
    hide Step; hide Scan; hide Passed; hide NameCase;
    if part != "" {
      AtFirst(s, p, part);
      CharCasesStable(enc, part, s[p + |part|..]);
      NameStep(enc, q, s[p..]);
      Goes(enc, s, q, p, name, value);
      var n := NameCase(enc, part).n;
      AtParts(s, p, part[..n], part[n..]);
      assert part == part[..n] + part[n..];
      NameScan(enc, s, q, p + n, part[n..], name, value);
    }
  }

  /** A whole name, from a state where one starts. */
  function NameBehind(q: State): State
  {
    match q
    case LtOpen => TagName
    case EndTagOpen => EndTagName
    case TagSpace | AttSpace => AttName
    case RefOpen(ctx) => RefName(ctx)
    case _ => q
  }

  predicate NameStarts(q: State) { q.LtOpen? || q.EndTagOpen? || q.TagSpace? || q.AttSpace? || q.RefOpen? }

  lemma {:induction false} StartStep(enc: Encoding, q: State, w: string)
    requires w != "" && NameStarts(q) && NmstrtCase(enc, w).Take?
    ensures Step(enc, q, w) == Go(NmstrtCase(enc, w).n, NameBehind(q))
  {
    hide Step; hide NameCase; hide NmstrtCase; hide InvalidCase;
    StepBy(enc, q, w);
  }

  lemma {:induction false} WholeName(enc: Encoding, s: string, q: State, p: nat, part: string, name: nat, value: nat)
    requires At(s, p, part) && NameStarts(q) && LegalName(enc, part)
    ensures Leads(enc, s, q, p, name, value, NameBehind(q), p + |part|, if NameBehind(q).AttName? then p else name, value)
  {
    hide Step; hide Scan; hide Passed; hide NmstrtCase; hide NameRest; hide At;
    AtFirst(s, p, part);
    CharCasesStable(enc, part, s[p + |part|..]);
    StartStep(enc, q, s[p..]);
    Goes(enc, s, q, p, name, value);
    var n := NmstrtCase(enc, part).n;
    AtParts(s, p, part[..n], part[n..]);
    assert part == part[..n] + part[n..];
    NameScan(enc, s, NameBehind(q), p + n, part[n..], if NameBehind(q).AttName? then p else name, value);
  }

  // ---- Escaped characters ----

  predicate Special(c: char) { c == '&' || c == '\'' || c == '\"' || c == '<' || c == '>' }

  function EntityName(c: char): string
    requires Special(c)
  {
    match c case '&' => "amp" case '\'' => "apos" case '\"' => "quot" case '<' => "lt" case '>' => "gt"
  }

  lemma {:induction false} EntityNames(c: char)
    requires Special(c)
    ensures EscapeChar(c) == "&" + (EntityName(c) + ";") && PredefinedEntityName(EntityName(c)) == Some(c)
  {
    var e := EntityName(c);
    assert |e| == 2 || |e| == 3 || |e| == 4;
    assert EscapeChar(c) == "&" + (e + ";") by {
      if c == '&' { assert "&amp;" == "&" + ("amp" + ";"); }
      else if c == '\'' { assert "&apos;" == "&" + ("apos" + ";"); }
      else if c == '\"' { assert "&quot;" == "&" + ("quot" + ";"); }
      else if c == '<' { assert "&lt;" == "&" + ("lt" + ";"); }
      else { assert "&gt;" == "&" + ("gt" + ";"); }
    }
  }

  lemma {:induction false} EntityNameLegal(enc: Encoding, c: char)
    requires Special(c) && Utf8(enc)
    ensures LegalName(enc, EntityName(c))
  {
    LettersLegal(enc, EntityName(c));
  }

  lemma {:induction false} LettersRest(enc: Encoding, s: string)
    requires Utf8(enc) && forall i :: 0 <= i < |s| ==> 'a' <= s[i] <= 'z'
    ensures NameRest(enc, s)
    decreases |s|
  {
    if s != "" {
      assert enc.byteType(s[0]) == Utf8Type(s[0]);
      LettersRest(enc, s[1..]);
    }
  }

  lemma {:induction false} LettersLegal(enc: Encoding, s: string)
    requires Utf8(enc) && s != "" && forall i :: 0 <= i < |s| ==> 'a' <= s[i] <= 'z'
    ensures LegalName(enc, s)
  {
    assert enc.byteType(s[0]) == Utf8Type(s[0]);
    LettersRest(enc, s[1..]);
  }

  // ---- Inside a value ----

  const IN_QUOTES := AttValue(APOS)

  lemma {:induction false} ValueMoves(enc: Encoding, w: string)
    requires w != "" && Utf8(enc)
    ensures w[0] == '&' ==> Step(enc, IN_QUOTES, w) == Go(1, RefOpen(InValue(APOS)))
    ensures w[0] == '\'' ==> Step(enc, IN_QUOTES, w) == Go(1, AttValueEnd)
    ensures LegalChar(enc, w) > 0 && !Special(w[0]) ==> Step(enc, IN_QUOTES, w) == Go(LegalChar(enc, w), IN_QUOTES)
    ensures w[0] == ';' ==> Step(enc, RefName(InValue(APOS)), w) == Go(1, IN_QUOTES)
    ensures w[0] == ';' ==> Step(enc, RefName(InContent), w) == Accept(EntityRef, 1)
  {
    hide Step;
    StepBy(enc, IN_QUOTES, w);
    SemicolonMoves(enc, w);
    if w[0] != '\r' { assert enc.byteType(w[0]) == Utf8Type(w[0]); }
  }

  lemma {:induction false} SemicolonMoves(enc: Encoding, w: string)
    requires w != "" && Utf8(enc)
    ensures w[0] == ';' ==> Step(enc, RefName(InValue(APOS)), w) == Go(1, IN_QUOTES) && Step(enc, RefName(InContent), w) == Accept(EntityRef, 1)
  {
    hide Step;
    StepBy(enc, RefName(InValue(APOS)), w);
    StepBy(enc, RefName(InContent), w);
    if w[0] != '\r' { assert enc.byteType(w[0]) == Utf8Type(w[0]); }
  }

  lemma {:induction false} ReferenceScan(enc: Encoding, s: string, p: nat, c: char, name: nat, value: nat)
    requires Utf8(enc) && Special(c) && At(s, p, EscapeChar(c))
    ensures Leads(enc, s, IN_QUOTES, p, name, value, IN_QUOTES, p + |EscapeChar(c)|, name, value)
  {
    hide Step; hide Scan; hide Passed; hide LegalName; hide Utf8; hide EscapeChar; hide EntityName;
    var e := EntityName(c);
    EntityNames(c);
    EntityNameLegal(enc, c);
    AtParts(s, p, "&", e + ";");
    AtParts(s, p + 1, e, ";");
    AtFirst(s, p, "&");
    ValueMoves(enc, s[p..]);
    Goes(enc, s, IN_QUOTES, p, name, value);
    WholeName(enc, s, RefOpen(InValue(APOS)), p + 1, e, name, value);
    AtFirst(s, p + 1 + |e|, ";");
    ValueMoves(enc, s[p + 1 + |e|..]);
    Goes(enc, s, RefName(InValue(APOS)), p + 1 + |e|, name, value);
  }

  lemma {:induction false} EscapeFirst(s: string)
    requires s != ""
    ensures Escape(s) == EscapeChar(s[0]) + Escape(s[1..])
    ensures !Special(s[0]) ==> EscapeChar(s[0]) == [s[0]]
  {
  }

  lemma {:induction false} EscapeConcat(a: string, b: string)
    ensures Escape(a + b) == Escape(a) + Escape(b)
    decreases |a|
  {
    if a == "" {
      assert a + b == b;
    } else {
      assert (a + b)[1..] == a[1..] + b;
      EscapeConcat(a[1..], b);
    }
  }

  lemma {:induction false} EscapePlain(s: string)
    requires forall i :: 0 <= i < |s| ==> !Special(s[i])
    ensures Escape(s) == s
    decreases |s|
  {
    if s != "" {
      EscapePlain(s[1..]);
      assert s == [s[0]] + s[1..];
    }
  }

  /** An ordinary character is printed as it is. */
  lemma {:induction false} OrdinaryChar(enc: Encoding, s: string)
    requires s != "" && LegalChar(enc, s) > 0 && !Special(s[0])
    ensures var n := LegalChar(enc, s); Escape(s) == s[..n] + Escape(s[n..])
  {
    var n := LegalChar(enc, s);
    assert s == s[..n] + s[n..];
    EscapeConcat(s[..n], s[n..]);
    EscapePlain(s[..n]);
  }

  lemma {:induction false} LegalCharStable(enc: Encoding, s: string, t: string)
    requires s != "" && LegalChar(enc, s) > 0
    ensures LegalChar(enc, s + t) == LegalChar(enc, s)
  {
    CharCasesStable(enc, s, t);
    var n := LegalChar(enc, s);
    assert forall i :: 0 < i < n ==> (s + t)[i] == s[i];
  }

  /** A special character is a character of its own. */
  lemma {:induction false} SpecialChar(enc: Encoding, s: string)
    requires s != "" && Special(s[0]) && Utf8(enc)
    ensures LegalChar(enc, s) == 1
  {
    assert enc.byteType(s[0]) == Utf8Type(s[0]);
  }

  lemma {:induction false} LegalCharAlone(enc: Encoding, s: string)
    requires s != "" && LegalChar(enc, s) > 0
    ensures var n := LegalChar(enc, s); LegalChar(enc, s[..n]) == n
  {
    var n := LegalChar(enc, s);
    assert s[..n][..n] == s[..n];
  }

  lemma {:induction false} ValueScan(enc: Encoding, s: string, p: nat, v: string, name: nat, value: nat)
    requires Utf8(enc) && LegalText(enc, v) && At(s, p, Escape(v))
    ensures Leads(enc, s, IN_QUOTES, p, name, value, IN_QUOTES, p + |Escape(v)|, name, value)
    decreases |v|
  {
    hide Step; hide Scan; hide Passed; hide LegalChar; hide Utf8; hide EscapeChar; hide Escape;
    if v == "" {
      assert Escape(v) == "" by { EscapePlain(""); }
    } else if Special(v[0]) {
      SpecialChar(enc, v);
      EscapeFirst(v);
      AtParts(s, p, EscapeChar(v[0]), Escape(v[1..]));
      ReferenceScan(enc, s, p, v[0], name, value);
      ValueScan(enc, s, p + |EscapeChar(v[0])|, v[1..], name, value);
    } else {
      var n := LegalChar(enc, v);
      OrdinaryChar(enc, v);
      AtParts(s, p, v[..n], Escape(v[n..]));
      OrdinaryScan(enc, s, p, v[..n], name, value) by { LegalCharAlone(enc, v); }
      ValueScan(enc, s, p + n, v[n..], name, value);
    }
  }

  lemma {:induction false} OrdinaryScan(enc: Encoding, s: string, p: nat, c: string, name: nat, value: nat)
    requires Utf8(enc) && c != "" && LegalChar(enc, c) == |c| && !Special(c[0]) && At(s, p, c)
    ensures Leads(enc, s, IN_QUOTES, p, name, value, IN_QUOTES, p + |c|, name, value)
  {
    hide Step; hide Scan; hide Passed; hide LegalChar; hide Utf8;
    AtFirst(s, p, c);
    LegalCharStable(enc, c, s[p + |c|..]);
    ValueMoves(enc, s[p..]);
    Goes(enc, s, IN_QUOTES, p, name, value);
  }

  // ---- Start tags ----

  /** One printed attribute, and where its parts are. */
  function PrintAtt(att: (string, string)): string { " " + att.0 + "='" + Escape(att.1) + "'" }

  function PositionOf(att: (string, string), p: nat): Attribute
  {
    Attribute(p + 1, p + |att.0| + 3, p + |att.0| + 3 + |Escape(att.1)|, true)
  }

  function Positions(atts: seq<(string, string)>, p: nat): (l: seq<Attribute>)
    ensures |l| == |atts|
    decreases |atts|
  {
    if atts == [] then [] else [PositionOf(atts[0], p)] + Positions(atts[1..], p + |PrintAtt(atts[0])|)
  }

  lemma {:induction false} PrintAttsFirst(atts: seq<(string, string)>)
    requires atts != []
    ensures PrintAtts(atts) == PrintAtt(atts[0]) + PrintAtts(atts[1..])
  {
  }

  /** The states a further attribute, or the end of the tag, may follow. */
  predicate Behind(q: State) { q.TagName? || q.AttValueEnd? }

  function Inside(q: State): State { if q.AttValueEnd? then AttSpace else TagSpace }

  lemma {:induction false} TagMoves(enc: Encoding, q: State, w: string)
    requires w != "" && Utf8(enc) && Behind(q)
    ensures w[0] == ' ' ==> Step(enc, q, w) == Go(1, Inside(q))
    ensures w[0] == '>' ==> Step(enc, q, w) == Accept(if q.AttValueEnd? then StartTagWithAtts else StartTagNoAtts, 1)
    ensures w[0] == '/' ==> Step(enc, q, w) == Go(1, TagSlash(q.AttValueEnd?))
  {
    hide Step;
    StepBy(enc, q, w);
    if w[0] != '\r' { assert enc.byteType(w[0]) == Utf8Type(w[0]); }
  }

  lemma {:induction false} AttMoves(enc: Encoding, w: string)
    requires w != "" && Utf8(enc)
    ensures w[0] == '=' ==> Step(enc, AttName, w) == Go(1, AttEq)
    ensures w[0] == '\'' ==> Step(enc, AttEq, w) == Go(1, IN_QUOTES)
    ensures w[0] == '>' ==> forall b :: Step(enc, TagSlash(b), w) == Accept(if b then EmptyElementWithAtts else EmptyElementNoAtts, 1)
  {
    hide Step;
    if w[0] == '=' { NameMove(enc, w); }
    if w[0] == '\'' { QuoteMove(enc, w); }
    if w[0] == '>' { SlashMove(enc, w, true); SlashMove(enc, w, false); }
  }

  lemma {:induction false} NameMove(enc: Encoding, w: string)
    requires w != "" && Utf8(enc) && w[0] == '='
    ensures Step(enc, AttName, w) == Go(1, AttEq)
  {
    hide Step;
    StepBy(enc, AttName, w);
    assert enc.byteType(w[0]) == Utf8Type(w[0]);
  }

  lemma {:induction false} QuoteMove(enc: Encoding, w: string)
    requires w != "" && Utf8(enc) && w[0] == '\''
    ensures Step(enc, AttEq, w) == Go(1, IN_QUOTES)
  {
    hide Step;
    StepBy(enc, AttEq, w);
    assert enc.byteType(w[0]) == Utf8Type(w[0]);
  }

  lemma {:induction false} SlashMove(enc: Encoding, w: string, b: bool)
    requires w != "" && Utf8(enc) && w[0] == '>'
    ensures Step(enc, TagSlash(b), w) == Accept(if b then EmptyElementWithAtts else EmptyElementNoAtts, 1)
  {
    hide Step;
    StepBy(enc, TagSlash(b), w);
    assert enc.byteType(w[0]) == Utf8Type(w[0]);
  }

  /** The parts of a printed attribute are where `PositionOf` says. */
  lemma {:induction false} AttParts(s: string, p: nat, att: (string, string))
    requires At(s, p, PrintAtt(att))
    ensures At(s, p, " ") && At(s, p + 1, att.0) && At(s, p + 1 + |att.0|, "=") && At(s, p + |att.0| + 2, "'")
    ensures At(s, p + |att.0| + 3, Escape(att.1)) && At(s, p + |att.0| + 3 + |Escape(att.1)|, "'")
    ensures |PrintAtt(att)| == |att.0| + |Escape(att.1)| + 4
  {
    hide Escape;
    var e := Escape(att.1);
    var tail := e + "'";
    assert PrintAtt(att) == " " + (att.0 + ("=" + ("'" + tail)));
    AtParts(s, p, " ", att.0 + ("=" + ("'" + tail)));
    AtParts(s, p + 1, att.0, "=" + ("'" + tail));
    assert At(s, p + 1 + |att.0|, "=" + ("'" + tail));
    hide At;
    AtParts(s, p + 1 + |att.0|, "=", "'" + tail);
    AtParts(s, p + |att.0| + 2, "'", tail);
    AtParts(s, p + |att.0| + 3, e, "'");
  }

  /** From behind a name or value to the opening quote of the next value. */
  lemma {:induction false} ToQuote(enc: Encoding, s: string, q: State, p: nat, att: (string, string), name: nat, value: nat)
    requires Utf8(enc) && Behind(q) && LegalName(enc, att.0) && At(s, p, PrintAtt(att))
    ensures var a := PositionOf(att, p); a.valuePtr <= |s| && Leads(enc, s, q, p, name, value, IN_QUOTES, a.valuePtr, a.name, a.valuePtr)
  {
    hide Step; hide Scan; hide Passed; hide LegalName; hide Utf8; hide Escape; hide PrintAtt; hide LegalText;
    AttParts(s, p, att);
    var a := PositionOf(att, p);
    AtFirst(s, p, " ");
    TagMoves(enc, q, s[p..]);
    Goes(enc, s, q, p, name, value);
    WholeName(enc, s, Inside(q), a.name, att.0, name, value);
    EqualsScan(enc, s, a.name + |att.0|, a.name, value);
  }

  lemma {:induction false} EqualsScan(enc: Encoding, s: string, p: nat, name: nat, value: nat)
    requires Utf8(enc) && At(s, p, "=") && At(s, p + 1, "'")
    ensures Leads(enc, s, AttName, p, name, value, IN_QUOTES, p + 2, name, p + 2)
  {
    hide Step; hide Scan; hide Passed; hide Utf8;
    AtFirst(s, p, "=");
    AttMoves(enc, s[p..]);
    Goes(enc, s, AttName, p, name, value);
    AtFirst(s, p + 1, "'");
    AttMoves(enc, s[p + 1..]);
    Goes(enc, s, AttEq, p + 1, name, value);
  }

  lemma {:induction false} QuoteScan(enc: Encoding, s: string, p: nat, name: nat, value: nat)
    requires Utf8(enc) && At(s, p, "'")
    ensures Scan(enc, IN_QUOTES, s, p) == Scan(enc, AttValueEnd, s, p + 1)
    ensures Passed(enc, IN_QUOTES, s, p, name, value) == [Attribute(name, value, p, true)] + Passed(enc, AttValueEnd, s, p + 1, name, value)
  {
    hide Step; hide Scan; hide Passed; hide Utf8;
    AtFirst(s, p, "'");
    ValueMoves(enc, s[p..]);
    ScanUnfold(enc, IN_QUOTES, s, p);
    PassedStep(enc, IN_QUOTES, s, p, name, value);
  }

  /** Over one attribute: one position is passed. */
  lemma {:induction false} AttScan(enc: Encoding, s: string, q: State, p: nat, att: (string, string), name: nat, value: nat)
    requires Utf8(enc) && Behind(q) && LegalName(enc, att.0) && LegalText(enc, att.1) && At(s, p, PrintAtt(att))
    ensures var p' := p + |PrintAtt(att)|; var a := PositionOf(att, p);
            && p' <= |s|
            && Scan(enc, q, s, p) == Scan(enc, AttValueEnd, s, p')
            && Passed(enc, q, s, p, name, value) == [a] + Passed(enc, AttValueEnd, s, p', a.name, a.valuePtr)
  {
    hide Step; hide Scan; hide Passed; hide LegalText; hide LegalName; hide Utf8; hide Escape; hide PrintAtt; hide At;
    AttParts(s, p, att);
    ToQuote(enc, s, q, p, att, name, value);
    var a := PositionOf(att, p);
    ValueScan(enc, s, a.valuePtr, att.1, a.name, a.valuePtr);
    QuoteScan(enc, s, a.valueEnd, a.name, a.valuePtr);
    assert a.valueEnd + 1 == p + |PrintAtt(att)| <= |s| by { AtEnds(s, p, PrintAtt(att)); }
  }

  lemma {:induction false} AtEnds(s: string, p: nat, part: string)
    requires At(s, p, part)
    ensures p + |part| <= |s|
  {
  }

  function TagToken(empty: bool, withAtts: bool): Token
  {
    if empty then (if withAtts then EmptyElementWithAtts else EmptyElementNoAtts)
    else if withAtts then StartTagWithAtts else StartTagNoAtts
  }

  function TagTail(empty: bool): string { if empty then "/>" else ">" }

  lemma {:induction false} NothingPassed(enc: Encoding, q: State, s: string, p: nat, name: nat, value: nat)
    requires p < |s| && !Step(enc, q, s[p..]).Go?
    ensures Passed(enc, q, s, p, name, value) == []
  {
    hide Step;
  }

  lemma {:induction false} TailScan(enc: Encoding, s: string, q: State, p: nat, empty: bool, name: nat, value: nat)
    requires Utf8(enc) && Behind(q) && At(s, p, TagTail(empty))
    ensures Scan(enc, q, s, p) == Tok(TagToken(empty, q.AttValueEnd?), p + |TagTail(empty)|)
    ensures Passed(enc, q, s, p, name, value) == []
  {
    hide Step; hide Scan; hide Passed; hide Utf8;
    AtFirst(s, p, TagTail(empty));
    TagMoves(enc, q, s[p..]);
    ScanUnfold(enc, q, s, p);
    if empty {
      AtFirst(s, p + 1, ">");
      AttMoves(enc, s[p + 1..]);
      Goes(enc, s, q, p, name, value);
      ScanUnfold(enc, TagSlash(q.AttValueEnd?), s, p + 1);
      NothingPassed(enc, TagSlash(q.AttValueEnd?), s, p + 1, name, value);
    } else {
      NothingPassed(enc, q, s, p, name, value);
    }
  }

  lemma {:induction false} AttsScan(enc: Encoding, s: string, q: State, p: nat, atts: seq<(string, string)>, empty: bool, name: nat, value: nat)
    requires Utf8(enc) && Behind(q) && LegalAtts(enc, atts) && At(s, p, PrintAtts(atts) + TagTail(empty))
    ensures Scan(enc, q, s, p) == Tok(TagToken(empty, q.AttValueEnd? || atts != []), p + |PrintAtts(atts)| + |TagTail(empty)|)
    ensures Passed(enc, q, s, p, name, value) == Positions(atts, p)
    decreases |atts|
  {
    hide Step; hide Scan; hide Passed; hide Utf8; hide LegalName; hide LegalText; hide PrintAtt;
    if atts == [] {
      assert "" + TagTail(empty) == TagTail(empty);
      TailScan(enc, s, q, p, empty, name, value);
    } else {
      hide PrintAtts;
      PrintAttsFirst(atts);
      assert PrintAtts(atts) + TagTail(empty) == PrintAtt(atts[0]) + (PrintAtts(atts[1..]) + TagTail(empty));
      AtParts(s, p, PrintAtt(atts[0]), PrintAtts(atts[1..]) + TagTail(empty));
      AttScan(enc, s, q, p, atts[0], name, value);
      var a := PositionOf(atts[0], p);
      AttsScan(enc, s, AttValueEnd, p + |PrintAtt(atts[0])|, atts[1..], empty, a.name, a.valuePtr);
    }
  }

  /** A printed start tag is scanned to its ">", and its attributes are passed where they were printed. */
  lemma {:induction false} OpenTagScan(enc: Encoding, s: string, name: string, atts: seq<(string, string)>, empty: bool)
    requires Utf8(enc) && LegalName(enc, name) && LegalAtts(enc, atts) && At(s, 0, OpenTag(name, atts, empty))
    ensures |s| >= 1 && s[0] == '<'
    ensures Scan(enc, LtOpen, s, 1) == Tok(TagToken(empty, atts != []), |OpenTag(name, atts, empty)|)
    ensures Passed(enc, LtOpen, s, 1, 0, 0) == Positions(atts, 1 + |name|)
  {
    hide Step; hide Scan; hide Passed; hide Utf8; hide LegalName; hide PrintAtts; hide LegalAtts; hide NmstrtCase; hide NameRest; hide Positions;
    var tail := PrintAtts(atts) + TagTail(empty);
    assert OpenTag(name, atts, empty) == "<" + (name + tail);
    AtParts(s, 0, "<", name + tail);
    AtParts(s, 1, name, tail);
    AtFirst(s, 0, "<");
    WholeName(enc, s, LtOpen, 1, name, 0, 0);
    AttsScan(enc, s, TagName, 1 + |name|, atts, empty, 0, 0);
  }

  // ---- Values come back ----

  lemma {:induction false} ValueRunShift(enc: Encoding, s: string, k: nat, p: nat)
    requires k + p <= |s|
    ensures ValueRun(enc, s, k + p) == Shift(k, ValueRun(enc, s[k..], p))
    decreases |s| - p
  {
    if k + p < |s| {
      assert s[k..][p] == s[k + p];
      var n := LeadLength(enc.byteType(s[k + p]));
      if n == 0 { ValueRunShift(enc, s, k, p + 1); } else if k + p + n <= |s| { ValueRunShift(enc, s, k, p + n); }
    }
  }

  /** Taking the first character of a run by itself makes no difference. */
  lemma {:induction false} RunSplit(internal: Encoding, dtd: Dtd, open: set<string>, enc: Encoding, isCdata: bool, w: string, n: nat, pool: string)
    requires 0 < n <= |w| && AttributeValueTok(enc, w) == ValueRun(enc, w, n)
    ensures AppendValue(internal, dtd, open, enc, isCdata, w, pool) == AppendValue(internal, dtd, open, enc, isCdata, w[n..], pool + w[..n])
  {
    hide AttributeValueTok; hide ExpandEntity;
    var v := ValueRun(enc, w, n);
    var rest := w[n..];
    ValueRunShift(enc, w, n, 0);
    if v != Tok(DataChars, n) {
      assert AttributeValueTok(enc, rest) == ValueRun(enc, rest, 0) by { RunGoesOn(enc, rest); }
      if v.Tok? {
        var k := v.next - n;
        assert pool + w[..n] + rest[..k] == pool + w[..v.next] && rest[k..] == w[v.next..];
      }
    }
  }

  lemma {:induction false} RunGoesOn(enc: Encoding, w: string)
    requires ValueRun(enc, w, 0) != Tok(DataChars, 0)
    ensures AttributeValueTok(enc, w) == ValueRun(enc, w, 0)
  {
    hide Scan;
  }

  lemma {:induction false} OrdinaryTok(enc: Encoding, c: string, rest: string)
    requires Utf8(enc) && c != "" && LegalChar(enc, c) == |c| && c[0] != '&' && c[0] != '<' && !Blank(c[0])
    ensures AttributeValueTok(enc, c + rest) == ValueRun(enc, c + rest, |c|)
  {
    hide Scan;
    var w := c + rest;
    assert w[0] == c[0] && enc.byteType(c[0]) == Utf8Type(c[0]);
    OneTurn(enc, w, 0);
  }

  lemma {:induction false} OneTurn(enc: Encoding, w: string, p: nat)
    requires p < |w|
    ensures var t := enc.byteType(w[p]); var n := LeadLength(t);
            && (n > 0 && n <= |w| - p ==> ValueRun(enc, w, p) == ValueRun(enc, w, p + n))
            && (n == 0 && t != LT && t != AMP && t != LF && t != CR && t != S ==> ValueRun(enc, w, p) == ValueRun(enc, w, p + 1))
  {
  }

  lemma {:induction false} AppendOrdinary(internal: Encoding, dtd: Dtd, open: set<string>, enc: Encoding, isCdata: bool, c: string, rest: string, pool: string)
    requires Utf8(enc) && c != "" && LegalChar(enc, c) == |c| && c[0] != '&' && c[0] != '<' && !Blank(c[0])
    ensures AppendValue(internal, dtd, open, enc, isCdata, c + rest, pool) == AppendValue(internal, dtd, open, enc, isCdata, rest, pool + c)
  {
    hide AppendValue;
    var w := c + rest;
    assert w[|c|..] == rest && w[..|c|] == c;
    OrdinaryTok(enc, c, rest);
    RunSplit(internal, dtd, open, enc, isCdata, w, |c|, pool);
  }

  predicate Blank(c: char) { c == ' ' || c == '\t' || c == '\n' || c == '\r' }

  /** White space, a CR only where it is the end of a line. */
  predicate WhiteSpace(enc: Encoding, c: char) { Blank(c) && (c == '\r' ==> enc.byteType(c) == CR) }

  lemma {:induction false} LegalBlank(enc: Encoding, s: string)
    requires Utf8(enc) && s != "" && LegalChar(enc, s) > 0 && Blank(s[0])
    ensures WhiteSpace(enc, s[0])
  {
  }

  lemma {:induction false} BlankTok(enc: Encoding, c: char, rest: string)
    requires Utf8(enc) && WhiteSpace(enc, c)
    ensures var v := AttributeValueTok(enc, [c] + rest);
            if c == '\r' && rest == "" then v.TrailingCr?
            else v.Tok? && (v.tok == AttributeValueS || v.tok == DataNewline)
                 && v.next == if c == '\r' && rest[0] == '\n' then 2 else 1
  {
    hide ValueRun; hide Scan;
    var w := [c] + rest;
    if c != '\r' { assert enc.byteType(c) == Utf8Type(c); }
    if rest != "" {
      assert w[1] == rest[0] && (rest[0] != '\r' ==> enc.byteType(rest[0]) == Utf8Type(rest[0]));
    }
  }

  /** White space in a CDATA value is stored as a space, a line end as one. */
  lemma {:induction false} AppendBlank(internal: Encoding, dtd: Dtd, open: set<string>, enc: Encoding, isCdata: bool, c: char, rest: string, pool: string)
    requires Utf8(enc) && WhiteSpace(enc, c)
    ensures var rest' := if c == '\r' && rest != "" && rest[0] == '\n' then rest[1..] else rest;
            AppendValue(internal, dtd, open, enc, isCdata, [c] + rest, pool) == AppendValue(internal, dtd, open, enc, isCdata, rest', AppendSpace(isCdata, pool))
  {
    hide AttributeValueTok; hide ExpandEntity; hide AppendSpace;
    var w := [c] + rest;
    BlankTok(enc, c, rest);
    assert w[1..] == rest && (rest != "" ==> w[2..] == rest[1..]);
  }

  /** What is left of white space in a value. */
  function Blanks(s: string): string
  {
    if s == "" then ""
    else if s[0] == '\r' && |s| > 1 && s[1] == '\n' then " " + Blanks(s[2..])
    else (if Blank(s[0]) then " " else [s[0]]) + Blanks(s[1..])
  }

  lemma {:induction false} BlanksBehind(a: string, b: string)
    requires forall i :: 0 <= i < |a| ==> !Blank(a[i])
    ensures Blanks(a + b) == a + Blanks(b)
    decreases |a|
  {
    if a == "" {
      assert a + b == b && "" + Blanks(b) == Blanks(b);
    } else {
      assert (a + b)[1..] == a[1..] + b && a == [a[0]] + a[1..];
      BlanksBehind(a[1..], b);
    }
  }

  lemma {:induction false} NoBlankInside(enc: Encoding, c: string)
    requires c != "" && LegalChar(enc, c) == |c| && !Blank(c[0])
    ensures forall i :: 0 <= i < |c| ==> !Blank(c[i])
  {
  }

  /** The parser's view of an escaped value, one character at a time. */
  lemma {:induction false} ValueRestored(internal: Encoding, dtd: Dtd, open: set<string>, enc: Encoding, isCdata: bool, v: string, pool: string)
    requires Utf8(enc) && LegalText(enc, v)
    ensures AppendValue(internal, dtd, open, enc, isCdata, Escape(v), pool) == Value(Put(isCdata, pool, Blanks(v)))
    decreases |v|
  {
    hide AppendValue; hide LegalChar; hide Utf8; hide EscapeChar; hide Escape; hide Put;
    if v == "" {
      assert Escape(v) == "" by { EscapePlain(""); }
      PutConcat(isCdata, pool, "", "");
      AppendNothing(internal, dtd, open, enc, isCdata, pool);
    } else if Special(v[0]) {
      SpecialChar(enc, v);
      EscapeFirst(v);
      AppendSpecial(internal, dtd, open, enc, isCdata, v[0], Escape(v[1..]), pool);
      ValueRestored(internal, dtd, open, enc, isCdata, v[1..], pool + [v[0]]);
      assert Blanks(v) == [v[0]] + Blanks(v[1..]);
      PutSolid(isCdata, pool, [v[0]]);
      PutConcat(isCdata, pool, [v[0]], Blanks(v[1..]));
    } else if Blank(v[0]) {
      LegalBlank(enc, v);
      BlankRestored(internal, dtd, open, enc, isCdata, v, pool);
      BlankLegal(enc, v);
      var rest := if v[0] == '\r' && |v| > 1 && v[1] == '\n' then v[2..] else v[1..];
      ValueRestored(internal, dtd, open, enc, isCdata, rest, AppendSpace(isCdata, pool));
      assert Blanks(v) == " " + Blanks(rest);
      PutSpace(isCdata, pool);
      PutConcat(isCdata, pool, " ", Blanks(rest));
    } else {
      var n := LegalChar(enc, v);
      OrdinaryChar(enc, v);
      LegalCharAlone(enc, v);
      AppendOrdinary(internal, dtd, open, enc, isCdata, v[..n], Escape(v[n..]), pool);
      ValueRestored(internal, dtd, open, enc, isCdata, v[n..], pool + v[..n]);
      NoBlankInside(enc, v[..n]);
      BlanksBehind(v[..n], v[n..]);
      assert v[..n] + v[n..] == v;
      PutSolid(isCdata, pool, v[..n]);
      PutConcat(isCdata, pool, v[..n], Blanks(v[n..]));
    }
  }

  lemma {:induction false} BlankRestored(internal: Encoding, dtd: Dtd, open: set<string>, enc: Encoding, isCdata: bool, v: string, pool: string)
    requires Utf8(enc) && v != "" && WhiteSpace(enc, v[0])
    ensures var rest := if v[0] == '\r' && |v| > 1 && v[1] == '\n' then v[2..] else v[1..];
            AppendValue(internal, dtd, open, enc, isCdata, Escape(v), pool) == AppendValue(internal, dtd, open, enc, isCdata, Escape(rest), AppendSpace(isCdata, pool))
  {
    hide AppendValue; hide Utf8; hide Escape;
    EscapeFirst(v);
    var u := Escape(v[1..]);
    AppendBlank(internal, dtd, open, enc, isCdata, v[0], u, pool);
    if |v| > 1 {
      EscapeFirst(v[1..]);
      EscapeHeads(v[1]);
      assert v[1..][1..] == v[2..] && u[0] == EscapeChar(v[1])[0];
      if v[1] == '\n' { assert u[1..] == Escape(v[2..]); }
    } else {
      EscapePlain("");
    }
  }

  lemma {:induction false} EscapeHeads(c: char)
    ensures EscapeChar(c) != "" && (c == '\n' <==> EscapeChar(c)[0] == '\n') && (!Special(c) ==> EscapeChar(c) == [c])
  {
  }

  lemma {:induction false} BlankLegal(enc: Encoding, v: string)
    requires v != "" && Blank(v[0]) && LegalText(enc, v) && Utf8(enc)
    ensures LegalText(enc, v[1..]) && (|v| > 1 && v[1] == '\n' ==> LegalText(enc, v[2..]))
  {
    BlankChar(enc, v);
    if |v| > 1 && v[1] == '\n' {
      BlankChar(enc, v[1..]);
      assert v[1..][1..] == v[2..];
    }
  }

  lemma {:induction false} BlankChar(enc: Encoding, s: string)
    requires s != "" && WhiteSpace(enc, s[0]) && Utf8(enc)
    ensures LegalChar(enc, s) == 1
  {
    if s[0] != '\r' { assert enc.byteType(s[0]) == Utf8Type(s[0]); }
  }

  lemma {:induction false} AppendNothing(internal: Encoding, dtd: Dtd, open: set<string>, enc: Encoding, isCdata: bool, pool: string)
    ensures AppendValue(internal, dtd, open, enc, isCdata, "", pool) == Value(pool)
  {
  }

  /** A predefined entity reference is a token of its own. */
  lemma {:induction false} ReferenceTok(enc: Encoding, c: char, rest: string)
    requires Utf8(enc) && Special(c)
    ensures var w := EscapeChar(c) + rest; Scan(enc, RefOpen(InContent), w, 1) == Tok(EntityRef, |EscapeChar(c)|)
    ensures EscapeChar(c) != "" && EscapeChar(c)[0] == '&' && Inner(EscapeChar(c)) == EntityName(c)
  {
    hide Step; hide Scan; hide Passed; hide LegalName; hide Utf8; hide EscapeChar; hide EntityName;
    var e, w := EntityName(c), EscapeChar(c) + rest;
    EntityNames(c);
    EntityNameLegal(enc, c);
    assert At(w, 0, "&" + (e + ";"));
    AtParts(w, 0, "&", e + ";");
    AtParts(w, 1, e, ";");
    WholeName(enc, w, RefOpen(InContent), 1, e, 0, 0);
    AtFirst(w, 1 + |e|, ";");
    ValueMoves(enc, w[1 + |e|..]);
    ScanUnfold(enc, RefName(InContent), w, 1 + |e|);
  }

  lemma {:induction false} AppendSpecial(internal: Encoding, dtd: Dtd, open: set<string>, enc: Encoding, isCdata: bool, c: char, rest: string, pool: string)
    requires Utf8(enc) && Special(c)
    ensures AppendValue(internal, dtd, open, enc, isCdata, EscapeChar(c) + rest, pool) == AppendValue(internal, dtd, open, enc, isCdata, rest, pool + [c])
  {
    hide Scan; hide EscapeChar; hide EntityName;
    var w := EscapeChar(c) + rest;
    ReferenceTok(enc, c, rest);
    EntityNames(c);
    assert w[0] == '&' && enc.byteType('&') == Utf8Type('&') == AMP;
    var n := |EscapeChar(c)|;
    assert AttributeValueTok(enc, w) == Tok(EntityRef, n);
    assert w[..n] == EscapeChar(c) && w[n..] == rest;
  }
}
