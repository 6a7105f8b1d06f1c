/**
 Text as it stands, CDATA sections, comments and processing instructions in content (sections
 2.4 to 2.7 of XML 1.0): text and what is in a section are reported as they are,
 but for their line ends; of the other two nothing is.
 */
module XmlMarkup {
  import opened XmlScan
  import opened XmlTok
  import opened XmlValue
  import opened XmlContent
  import opened XmlChunks
  import opened XmlPrinted
  import opened XmlRoundTrip

  // ---- CDATA sections ----

  function Section(s: string): string { "<![CDATA[" + (s + "]]>") }

  predicate Close(s: string) { |s| >= 3 && s[0] == ']' && s[1] == ']' && s[2] == '>' }

  /** No "]]>" in the text. */
  predicate NoClose(s: string) { forall i :: 0 <= i <= |s| ==> !Close(s[i..]) }

  lemma {:induction false} Types(enc: Encoding)
    requires Utf8(enc)
    ensures enc.byteType('<') == LT && enc.byteType('!') == EXCL && enc.byteType('[') == LSQB && enc.byteType(']') == RSQB
    ensures enc.byteType('-') == MINUS && enc.byteType('?') == QUEST && enc.byteType(' ') == S && enc.byteType('\n') == LF
  {
    hide Utf8Type;
    MarkupTypes();
    assert enc.byteType('<') == Utf8Type('<') && enc.byteType('!') == Utf8Type('!') && enc.byteType('[') == Utf8Type('[') && enc.byteType(']') == Utf8Type(']');
    assert enc.byteType('-') == Utf8Type('-') && enc.byteType('?') == Utf8Type('?') && enc.byteType(' ') == Utf8Type(' ') && enc.byteType('\n') == Utf8Type('\n');
  }

  lemma {:induction false} MarkupTypes()
    ensures Utf8Type('<') == LT && Utf8Type('!') == EXCL && Utf8Type('[') == LSQB && Utf8Type(']') == RSQB
    ensures Utf8Type('-') == MINUS && Utf8Type('?') == QUEST && Utf8Type(' ') == S && Utf8Type('\n') == LF
  {
  }

  lemma {:induction false} ExclMoves(enc: Encoding, w: string)
    requires Utf8(enc) && |w| > 2 && w[0] == '<' && w[1] == '!'
    ensures ContentTok(enc, w) == Scan(enc, LtExcl, w, 2)
    ensures w[2] == '[' ==> ContentTok(enc, w) == Scan(enc, CdataOpen, w, 3)
    ensures w[2] == '-' ==> ContentTok(enc, w) == Scan(enc, CommentOpen, w, 3)
  {
    hide Scan; hide NmstrtCase; hide NameCase; hide DataRun;
    Types(enc);
    assert w[1..][0] == w[1] && w[2..][0] == w[2];
    assert NmstrtCase(enc, w[1..]) == NotListed by { NotName(enc, w[1..]); }
    TagUnfold(enc, LtOpen, w, 1);
    TagUnfold(enc, LtExcl, w, 2);
  }

  lemma {:induction false} NotName(enc: Encoding, w: string)
    requires w != "" && (enc.byteType(w[0]) == EXCL || enc.byteType(w[0]) == QUEST || enc.byteType(w[0]) == S)
    ensures NmstrtCase(enc, w) == NotListed && NameCase(enc, w) == NotListed
  {
  }

  lemma {:induction false} SectionOpens(enc: Encoding, rest: string)
    requires Utf8(enc)
    ensures ContentTok(enc, "<![CDATA[" + rest) == Tok(CdataSectOpen, 9)
  {
    hide Scan; hide ContentTok; hide Utf8;
    var w := "<![CDATA[" + rest;
    ExclMoves(enc, w);
    OtherUnfold(enc, CdataOpen, w, 3);
    var u := w[3..];
    assert u[0] == 'C' && u[1] == 'D' && u[2] == 'A' && u[3] == 'T' && u[4] == 'A' && u[5] == '[';
  }

  /** Reporting the front of a run by itself makes no difference. */
  lemma {:induction false} SectionSplit(env: Env, at: Place, prolog: Prolog, tags: seq<string>, w: string, n: nat, f: bool)
    requires 0 < n <= |w| && CdataTok(at.enc, w) == Tok(DataChars, CdataRun(at.enc, w, n))
    ensures InSection(env, at, prolog, tags, w, f) == Then(CharBytes(w[..n]), InSection(env, at, prolog, tags, w[n..], f))
  {
    hide CdataTok; hide CdataRun; hide Content;
    var m := CdataRun(at.enc, w, n);
    if m > n {
      CdataRunResume(at.enc, w, n);
      var rest := w[n..];
      var k := m - n;
      assert rest[k..] == w[m..] && CharBytes(w[..n]) + CharBytes(rest[..k]) == CharBytes(w[..m]);
      ThenThen(CharBytes(w[..n]), CharBytes(rest[..k]), InSection(env, at, prolog, tags, w[m..], f));
    }
  }

  /** How the first character of the text of a section is taken. */
  lemma {:induction false} SectionTok(enc: Encoding, s: string, rest: string)
    requires Utf8(enc) && s != "" && LegalText(enc, s) && NoClose(s)
    ensures var w := s + ("]]>" + rest); var n := LegalChar(enc, s);
            && 0 < n <= |s|
            && CdataTok(enc, w) == if s[0] == '\r' || s[0] == '\n' then Tok(DataNewline, if s[0] == '\r' && |s| > 1 && s[1] == '\n' then 2 else 1)
                                   else Tok(DataChars, CdataRun(enc, w, n))
  {
    hide CdataRun; hide NoClose; hide LegalText;
    var w := s + ("]]>" + rest);
    assert w[0] == s[0] && |w| > 3;
    assert LegalChar(enc, s) > 0 by { LegalFirst(enc, s); }
    if s[0] == '\r' {
      CrIsCr(enc, s);
      assert w[1] == if |s| > 1 then s[1] else ']';
      SecondType(enc, w[1]);
    } else {
      assert enc.byteType(s[0]) == Utf8Type(s[0]);
      if s[0] == ']' {
        NotClosed(s, rest);
      } else if LegalChar(enc, s) > 1 {
        assert w[..LegalChar(enc, s)] == s[..LegalChar(enc, s)];
      }
    }
  }

  lemma {:induction false} LegalFirst(enc: Encoding, s: string)
    requires s != "" && LegalText(enc, s)
    ensures LegalChar(enc, s) > 0 && LegalText(enc, s[LegalChar(enc, s)..])
  {
  }

  lemma {:induction false} SecondType(enc: Encoding, c: char)
    requires Utf8(enc)
    ensures enc.byteType(c) == LF <==> c == '\n'
  {
    if c != '\r' { assert enc.byteType(c) == Utf8Type(c); }
  }

  lemma {:induction false} NotClosed(s: string, rest: string)
    requires s != "" && s[0] == ']' && NoClose(s)
    ensures var w := s + ("]]>" + rest); |w| > 3 && !(w[1] == ']' && w[2] == '>')
  {
    var w := s + ("]]>" + rest);
    assert !Close(s[0..]) && s[0..] == s;
    if |s| == 1 { assert w[2] == ']'; } else if |s| == 2 { assert w[2] == ']'; } else { assert w[1] == s[1] && w[2] == s[2]; }
  }

  lemma {:induction false} NoCloseBehind(s: string, n: nat)
    requires NoClose(s) && n <= |s|
    ensures NoClose(s[n..])
  {
    forall i | 0 <= i <= |s| - n ensures !Close(s[n..][i..]) { assert s[n..][i..] == s[n + i..]; }
  }

  lemma {:induction false} SectionCloses(env: Env, at: Place, prolog: Prolog, tags: seq<string>, rest: string, f: bool)
    requires Utf8(at.enc)
    ensures InSection(env, at, prolog, tags, "]]>" + rest, f) == In(env, at, prolog, tags, rest, f)
  {
    hide Content; hide CdataRun;
    Types(at.enc);
    var w := "]]>" + rest;
    assert w[3..] == rest && CdataTok(at.enc, w) == Tok(CdataSectClose, 3);
  }

  lemma {:induction false} NewlineInSection(env: Env, at: Place, prolog: Prolog, tags: seq<string>, w: string, n: nat, f: bool)
    requires n <= |w| && CdataTok(at.enc, w) == Tok(DataNewline, n)
    ensures InSection(env, at, prolog, tags, w, f) == Then([CharByte('\n')], InSection(env, at, prolog, tags, w[n..], f))
  {
    hide Content; hide CdataTok;
  }

  /** The text of a section, and what follows it. */
  lemma {:induction false} SectionText(env: Env, at: Place, prolog: Prolog, tags: seq<string>, s: string, rest: string, f: bool)
    requires Utf8(at.enc) && LegalText(at.enc, s) && NoClose(s)
    ensures InSection(env, at, prolog, tags, s + ("]]>" + rest), f) == Then(CharBytes(LineEnds(s)), In(env, at, prolog, tags, rest, f))
    decreases |s|
  {
    hide *;
    var here := In(env, at, prolog, tags, rest, f);
    if s == "" {
      assert s + ("]]>" + rest) == "]]>" + rest;
      SectionCloses(env, at, prolog, tags, rest, f);
      NoLines();
      NothingThen(here);
    } else {
      var n, out := SectionFirst(env, at, prolog, tags, s, rest, f);
      SectionText(env, at, prolog, tags, s[n..], rest, f);
      ThenThen(CharBytes(out), CharBytes(LineEnds(s[n..])), here);
      LineBytes(out, LineEnds(s[n..]));
    }
  }

  /** `n` bytes of the section, and what is reported for them. */
  lemma {:induction false} SectionFirst(env: Env, at: Place, prolog: Prolog, tags: seq<string>, s: string, rest: string, f: bool) returns (n: nat, out: string)
    requires Utf8(at.enc) && s != "" && LegalText(at.enc, s) && NoClose(s)
    ensures 0 < n <= |s| && LegalText(at.enc, s[n..]) && NoClose(s[n..]) && LineEnds(s) == out + LineEnds(s[n..])
    ensures InSection(env, at, prolog, tags, s + ("]]>" + rest), f) == Then(CharBytes(out), InSection(env, at, prolog, tags, s[n..] + ("]]>" + rest), f))
  {
    hide *;
    var w := s + ("]]>" + rest);
    SectionTok(at.enc, s, rest);
    LegalFirst(at.enc, s);
    if s[0] == '\r' || s[0] == '\n' {
      n, out := if s[0] == '\r' && |s| > 1 && s[1] == '\n' then 2 else 1, "\n";
      LineFirst(at.enc, s);
      NewlineInSection(env, at, prolog, tags, w, n, f);
      LineByte();
    } else {
      n := LegalChar(at.enc, s);
      out := s[..n];
      assert w[..n] == out;
      SectionSplit(env, at, prolog, tags, w, n, f);
      LegalCharAlone(at.enc, s);
      NoCrInside(at.enc, out);
      LineEndsBehind(out, s[n..]);
      assert out + s[n..] == s;
    }
    assert w[n..] == s[n..] + ("]]>" + rest);
    NoCloseBehind(s, n);
  }

  lemma {:induction false} LineByte()
    ensures CharBytes("\n") == [CharByte('\n')]
  {
  }

  lemma {:induction false} NoLines()
    ensures LineEnds("") == "" && CharBytes("") == []
  {
  }

  lemma {:induction false} LineBytes(a: string, b: string)
    ensures CharBytes(a) + CharBytes(b) == CharBytes(a + b) && CharBytes("\n") == [CharByte('\n')]
  {
  }

  lemma {:induction false} LineFirst(enc: Encoding, s: string)
    requires Utf8(enc) && s != "" && LegalText(enc, s) && (s[0] == '\r' || s[0] == '\n')
    ensures var k := if s[0] == '\r' && |s| > 1 && s[1] == '\n' then 2 else 1;
            LineEnds(s) == "\n" + LineEnds(s[k..]) && LegalText(enc, s[k..])
  {
    hide LegalText; hide Utf8;
    if s[0] == '\r' { CrIsCr(enc, s); }
    BlankIs(enc, s);
    BlankLegal(enc, s);
  }

  lemma {:induction false} BlankIs(enc: Encoding, s: string)
    requires Utf8(enc) && s != "" && LegalText(enc, s) && (s[0] == '\r' || s[0] == '\n')
    ensures WhiteSpace(enc, s[0])
  {
    if s[0] == '\r' { CrIsCr(enc, s); }
  }

  /** A section is reported as its text. */
  lemma {:induction false} SectionParsed(env: Env, at: Place, prolog: Prolog, tags: seq<string>, s: string, rest: string, f: bool)
    requires Utf8(at.enc) && LegalText(at.enc, s) && NoClose(s)
    ensures In(env, at, prolog, tags, Section(s) + rest, f) == Then(CharBytes(LineEnds(s)), In(env, at, prolog, tags, rest, f))
  {
    hide ContentTok; hide Cdata; hide Handle; hide Epilog; hide Utf8; hide LegalText; hide NoClose; hide LineEnds; hide AfterToken;
    var w := Section(s) + rest;
    var u := s + ("]]>" + rest);
    assert w == "<![CDATA[" + u && w[9..] == u;
    SectionOpens(at.enc, u);
    SectionText(env, at, prolog, tags, s, rest, f);
    ContentOfToken(env, prolog, at.open, at.enc, at.base, tags, w, f);
  }

  // ---- Text as it stands ----

  /** Text without markup, section 2.4 of XML 1.0. */
  predicate PlainText(enc: Encoding, s: string) { LegalText(enc, s) && '<' !in s && '&' !in s && NoClose(s) }

  /** Bytes that no character of XML starts with. */
  predicate Broken(enc: Encoding, w: string) { w != "" && InvalidCase(enc, w) == Bad }

  /** Where text ends: in front of markup, at the end, or at what may not be in it. */
  predicate TextEnd(enc: Encoding, rest: string, f: bool) { Edge(rest, f) || Close(rest) || Broken(enc, rest) }

  lemma {:induction false} EndChars(enc: Encoding, rest: string, f: bool)
    requires Utf8(enc) && TextEnd(enc, rest, f)
    ensures rest == "" ==> f
    ensures rest != "" ==> rest[0] != '>' && rest[0] != '\n' && (rest[0] == ']' ==> |rest| > 1 && rest[1] == ']')
  {
    assert enc.byteType('>') == Utf8Type('>') && enc.byteType('\n') == Utf8Type('\n') && enc.byteType(']') == Utf8Type(']');
  }

  /** How its first character is taken. */
  lemma {:induction false} PlainStep(enc: Encoding, s: string, rest: string, f: bool)
    requires Utf8(enc) && s != "" && LegalChar(enc, s) > 0 && s[0] !in {'\r', '\n', '<', '&'} && NoClose(s) && TextEnd(enc, rest, f)
    requires s[0] == ']' ==> s[1..] + rest != "" && s[1..] + rest != "]"
    ensures DataStep(enc, s + rest) == Over(LegalChar(enc, s))
  {
    var w, n := s + rest, LegalChar(enc, s);
    assert enc.byteType(s[0]) == Utf8Type(s[0]);
    assert w[0] == s[0] && w[..n] == s[..n] && w[1..] == s[1..] + rest;
    if s[0] == ']' {
      EndChars(enc, rest, f);
      assert s[0..] == s && !Close(s[0..]);
      assert |w| == 2 ==> w[1] == (s[1..] + rest)[0];
      if |w| > 2 && |s| <= 2 { assert w[|s|] == rest[0] && (|s| == 1 ==> w[2] == rest[1]); }
    }
  }

  /** Text is reported but for its line ends. */
  lemma {:induction false} PlainParsed(env: Env, at: Place, prolog: Prolog, tags: seq<string>, s: string, rest: string, f: bool)
    requires Utf8(at.enc) && PlainText(at.enc, s) && TextEnd(at.enc, rest, f)
    ensures Same(In(env, at, prolog, tags, s + rest, f), Then(CharBytes(LineEnds(s)), In(env, at, prolog, tags, rest, f)))
    decreases |s|
  {
    hide In; hide LegalChar; hide Utf8; hide LegalText; hide NoClose; hide DataStep; hide LineEnds;
    var here := In(env, at, prolog, tags, rest, f);
    if s == "" {
      assert "" + rest == rest && LineEnds("") == "" by { LineEndsBehind("", ""); LineEndsSame(""); }
      NothingThen(here);
    } else {
      var n, out := PlainFirst(env, at, prolog, tags, s, rest, f);
      PlainBehind(at.enc, s, n);
      PlainParsed(env, at, prolog, tags, s[n..], rest, f);
      var e, e' := CharBytes(out), CharBytes(LineEnds(s[n..]));
      SameThen(e, In(env, at, prolog, tags, s[n..] + rest, f), Then(e', here));
      ThenThen(e, e', here);
      CharBytesConcat(out, LineEnds(s[n..]));
    }
  }

  lemma {:induction false} PlainBehind(enc: Encoding, s: string, n: nat)
    requires PlainText(enc, s) && n <= |s| && LegalText(enc, s[n..])
    ensures PlainText(enc, s[n..])
  {
    hide LegalText; hide NoClose;
    NoCloseBehind(s, n);
  }

  /** `n` bytes of the text, and what is reported for them. */
  lemma {:induction false} PlainFirst(env: Env, at: Place, prolog: Prolog, tags: seq<string>, s: string, rest: string, f: bool) returns (n: nat, out: string)
    requires Utf8(at.enc) && s != "" && PlainText(at.enc, s) && TextEnd(at.enc, rest, f)
    ensures 0 < n <= |s| && LegalText(at.enc, s[n..]) && LineEnds(s) == out + LineEnds(s[n..])
    ensures Same(In(env, at, prolog, tags, s + rest, f), Then(CharBytes(out), In(env, at, prolog, tags, s[n..] + rest, f)))
  {
    hide In; hide LegalChar; hide Utf8; hide LegalText; hide NoClose; hide PlainText; hide LineEnds; hide TextEnd;
    if s[0] == '\r' {
      n, out := if |s| > 1 && s[1] == '\n' then 2 else 1, "\n";
      PlainCr(env, at, prolog, tags, s, rest, f);
    } else {
      PlainChar(env, at, prolog, tags, s, rest, f);
      n := LegalChar(at.enc, s);
      out := s[..n];
    }
  }

  /** Every other character by itself. */
  lemma {:induction false} PlainChar(env: Env, at: Place, prolog: Prolog, tags: seq<string>, s: string, rest: string, f: bool)
    requires Utf8(at.enc) && s != "" && PlainText(at.enc, s) && TextEnd(at.enc, rest, f) && s[0] != '\r'
    ensures var n := LegalChar(at.enc, s);
            && n > 0 && LegalText(at.enc, s[n..]) && LineEnds(s) == s[..n] + LineEnds(s[n..])
            && Same(In(env, at, prolog, tags, s + rest, f), Then(CharBytes(s[..n]), In(env, at, prolog, tags, s[n..] + rest, f)))
  {
    hide In; hide LegalChar; hide Utf8; hide LegalText; hide NoClose; hide DataStep; hide TextEnd; hide LineEnds;
    LegalFirst(at.enc, s);
    var u, n := s[1..] + rest, LegalChar(at.enc, s);
    LegalCharAlone(at.enc, s);
    NoCrInside(at.enc, s[..n]);
    LineEndsBehind(s[..n], s[n..]);
    assert s[..n] + s[n..] == s && (s + rest)[..n] == s[..n] && (s + rest)[n..] == s[n..] + rest;
    if s[0] == '\n' {
      BlankChar(at.enc, s);
      assert s + rest == "\n" + u && s[..1] == "\n" && CharBytes("\n") == [CharByte('\n')];
      NewlineParsed(env, at, prolog, tags, u, f);
    } else if s[0] == ']' && (u == "" || u == "]") {
      PlainBrackets(env, at, prolog, tags, s, rest, f);
    } else {
      PlainStep(at.enc, s, rest, f);
      DataSplit(env, at, prolog, tags, s + rest, n, f);
    }
  }

  /** A CR, with a LF behind it or not. */
  lemma {:induction false} PlainCr(env: Env, at: Place, prolog: Prolog, tags: seq<string>, s: string, rest: string, f: bool)
    requires Utf8(at.enc) && s != "" && PlainText(at.enc, s) && TextEnd(at.enc, rest, f) && s[0] == '\r'
    ensures var n := if |s| > 1 && s[1] == '\n' then 2 else 1;
            && LegalText(at.enc, s[n..]) && LineEnds(s) == "\n" + LineEnds(s[n..])
            && In(env, at, prolog, tags, s + rest, f) == Then(CharBytes("\n"), In(env, at, prolog, tags, s[n..] + rest, f))
  {
    hide In; hide Utf8; hide LegalText; hide NoClose;
    var u := s[1..] + rest;
    assert s + rest == "\r" + u && |u| == |s| - 1 + |rest|;
    assert CharBytes("\n") == [CharByte('\n')];
    CrIsCr(at.enc, s);
    BlankLegal(at.enc, s);
    if u == "" {
      assert "\r" + u == "\r" && s[1..] + rest == "";
      CrLast(env, at, prolog, tags);
    } else {
      CrParsed(env, at, prolog, tags, u, f);
      EndChars(at.enc, rest, f);
      if |s| > 1 { assert u[0] == s[1] && u[1..] == s[2..] + rest; } else { assert u == rest; }
    }
  }

  lemma {:induction false} NoBracketAtEnd(enc: Encoding, a: string, rest: string, f: bool)
    requires Utf8(enc) && TextEnd(enc, rest, f)
    ensures rest != "" ==> a + rest != "" && a + rest != "]"
    ensures rest == "" ==> f
  {
    EndChars(enc, rest, f);
    var w := a + rest;
    if rest != "" { assert w[|a|] == rest[0] && (|rest| == 1 ==> rest[0] != ']'); }
  }

  /** Brackets at the very end. */
  lemma {:induction false} PlainBrackets(env: Env, at: Place, prolog: Prolog, tags: seq<string>, s: string, rest: string, f: bool)
    requires Utf8(at.enc) && s != "" && s[0] == ']' && (s[1..] + rest == "" || s[1..] + rest == "]") && TextEnd(at.enc, rest, f)
    ensures LegalChar(at.enc, s) == 1 && In(env, at, prolog, tags, s + rest, f) == Then(CharBytes(s[..1]), In(env, at, prolog, tags, s[1..] + rest, f))
  {
    hide In;
    assert at.enc.byteType(']') == Utf8Type(']');
    NoBracketAtEnd(at.enc, s[1..], rest, f);
    assert s + rest == "]" + (s[1..] + rest) && s[..1] == "]";
    BracketsLast(env, at, prolog, tags, s[1..] + rest);
  }

  // ---- Comments ----

  function Remark(s: string): string { "<!--" + (s + "-->") }

  predicate Dashes(s: string) { |s| >= 2 && s[0] == '-' && s[1] == '-' }

  /** No "--" in the text, and no "-" at its end. */
  predicate NoDashes(s: string) { (forall i :: 0 <= i <= |s| ==> !Dashes(s[i..])) && (s != "" ==> s[|s| - 1] != '-') }

  lemma {:induction false} NoDashesBehind(s: string, n: nat)
    requires NoDashes(s) && n <= |s|
    ensures NoDashes(s[n..])
  {
    forall i | 0 <= i <= |s| - n ensures !Dashes(s[n..][i..]) { assert s[n..][i..] == s[n + i..]; }
  }

  lemma {:induction false} CommentMoves(enc: Encoding, w: string)
    requires Utf8(enc) && w != ""
    ensures w[0] == '-' ==> StepOther(enc, CommentBody, w) == Go(1, CommentMinus) && StepOther(enc, CommentMinus, w) == Go(1, CommentMinusMinus)
    ensures w[0] == '-' ==> StepOther(enc, CommentOpen, w) == Go(1, CommentBody)
    ensures w[0] == '>' ==> StepOther(enc, CommentMinusMinus, w) == Accept(Comment, 1)
    ensures w[0] != '-' ==> StepOther(enc, CommentMinus, w) == StepOther(enc, CommentBody, w)
    ensures w[0] != '-' && LegalChar(enc, w) > 0 ==> StepOther(enc, CommentBody, w) == Go(LegalChar(enc, w), CommentBody)
  {
    if w[0] == '-' { assert enc.byteType('-') == Utf8Type('-'); } else if w[0] != '\r' { assert enc.byteType(w[0]) == Utf8Type(w[0]); }
  }

  lemma {:induction false} CommentOver(enc: Encoding, w: string, p: nat)
    requires Utf8(enc) && At(w, p, "-->")
    ensures Scan(enc, CommentBody, w, p) == Tok(Comment, p + 3)
  {
    hide Scan; hide StepOther; hide Utf8;
    AtFirst(w, p, "-->");
    assert "-->"[1..] == "->" && "->"[1..] == ">";
    AtFirst(w, p + 1, "->");
    AtFirst(w, p + 2, ">");
    CommentMoves(enc, w[p..]);
    CommentMoves(enc, w[p + 1..]);
    CommentMoves(enc, w[p + 2..]);
    OtherUnfold(enc, CommentBody, w, p);
    OtherUnfold(enc, CommentMinus, w, p + 1);
    OtherUnfold(enc, CommentMinusMinus, w, p + 2);
  }

  /** One "-" in a comment. */
  lemma {:induction false} CommentDash(enc: Encoding, w: string, p: nat, s: string)
    requires Utf8(enc) && LegalText(enc, s) && NoDashes(s) && s != "" && s[0] == '-' && At(w, p, s)
    ensures p < |w| && At(w, p + 1, s[1..]) && LegalText(enc, s[1..]) && Scan(enc, CommentBody, w, p) == Scan(enc, CommentBody, w, p + 1)
  {
    hide Scan; hide StepOther; hide Utf8; hide LegalText; hide NoDashes; hide LegalChar; hide At;
    DashAlone(enc, s);
    assert s == [s[0]] + s[1..];
    AtParts(w, p, [s[0]], s[1..]);
    AtFirst(w, p, [s[0]]);
    AtFirst(w, p + 1, s[1..]);
    OtherUnfold(enc, CommentBody, w, p);
    CommentMoves(enc, w[p..]);
    CommentMoves(enc, w[p + 1..]);
    OtherUnfold(enc, CommentMinus, w, p + 1);
    OtherUnfold(enc, CommentBody, w, p + 1);
  }

  lemma {:induction false} CommentChar(enc: Encoding, w: string, p: nat, s: string)
    requires Utf8(enc) && LegalText(enc, s) && s != "" && s[0] != '-' && At(w, p, s)
    ensures var n := LegalChar(enc, s);
            0 < n <= |s| && p + n <= |w| && At(w, p + n, s[n..]) && LegalText(enc, s[n..]) && Scan(enc, CommentBody, w, p) == Scan(enc, CommentBody, w, p + n)
  {
    hide Scan; hide StepOther; hide Utf8; hide LegalText; hide LegalChar; hide At;
    LegalFirst(enc, s);
    AtFirst(w, p, s);
    OtherUnfold(enc, CommentBody, w, p);
    var n := LegalChar(enc, s);
    LegalCharStable(enc, s, w[p + |s|..]);
    CommentMoves(enc, w[p..]);
    assert s == s[..n] + s[n..];
    AtParts(w, p, s[..n], s[n..]);
  }

  lemma {:induction false} CommentNext(enc: Encoding, w: string, p: nat, s: string) returns (n: nat)
    requires Utf8(enc) && LegalText(enc, s) && NoDashes(s) && s != "" && At(w, p, s)
    ensures 0 < n <= |s| && p + n <= |w| && At(w, p + n, s[n..]) && LegalText(enc, s[n..]) && NoDashes(s[n..])
    ensures Scan(enc, CommentBody, w, p) == Scan(enc, CommentBody, w, p + n)
  {
    hide *;
    if s[0] == '-' {
      n := 1;
      CommentDash(enc, w, p, s);
    } else {
      n := LegalChar(enc, s);
      CommentChar(enc, w, p, s);
    }
    NoDashesBehind(s, n);
  }

  lemma {:induction false} CommentThrough(enc: Encoding, w: string, p: nat, s: string)
    requires Utf8(enc) && LegalText(enc, s) && NoDashes(s) && At(w, p, s)
    ensures p + |s| <= |w| && Scan(enc, CommentBody, w, p) == Scan(enc, CommentBody, w, p + |s|)
    decreases |s|
  {
    hide *;
    IsIn(w, p, s);
    if s != "" {
      var n := CommentNext(enc, w, p, s);
      CommentThrough(enc, w, p + n, s[n..]);
    }
  }

  lemma {:induction false} CommentScan(enc: Encoding, w: string, p: nat, s: string)
    requires Utf8(enc) && LegalText(enc, s) && NoDashes(s) && At(w, p, s + "-->")
    ensures p <= |w| && Scan(enc, CommentBody, w, p) == Tok(Comment, p + |s| + 3)
  {
    hide *;
    AtParts(w, p, s, "-->");
    CommentThrough(enc, w, p, s);
    CommentOver(enc, w, p + |s|);
  }

  lemma {:induction false} IsIn(w: string, p: nat, part: string)
    requires At(w, p, part)
    ensures p + |part| <= |w|
  {
  }

  lemma {:induction false} DashAlone(enc: Encoding, s: string)
    requires Utf8(enc) && LegalText(enc, s) && NoDashes(s) && s != "" && s[0] == '-'
    ensures LegalChar(enc, s) == 1 && LegalText(enc, s[1..]) && |s| > 1 && s[1] != '-'
  {
    assert enc.byteType('-') == Utf8Type('-');
    assert !Dashes(s[0..]) && s[0..] == s;
  }

  lemma {:induction false} RemarkTok(enc: Encoding, s: string, rest: string)
    requires Utf8(enc) && LegalText(enc, s) && NoDashes(s)
    ensures ContentTok(enc, Remark(s) + rest) == Tok(Comment, |Remark(s)|) && Scan(enc, CommentOpen, Remark(s) + rest, 3) == Tok(Comment, |Remark(s)|)
  {
    hide Scan; hide StepOther; hide Utf8; hide LegalText; hide NoDashes; hide ContentTok; hide LegalChar;
    var w := Remark(s) + rest;
    assert At(w, 0, "<!--" + (s + "-->"));
    AtParts(w, 0, "<!--", s + "-->");
    assert w[0] == '<' && w[1] == '!' && w[2] == '-' && w[3] == '-' && w[3..][0] == '-';
    ExclMoves(enc, w);
    OtherUnfold(enc, CommentOpen, w, 3);
    CommentMoves(enc, w[3..]);
    CommentScan(enc, w, 4, s);
  }

  // ---- Processing instructions ----

  function Instruction(target: string, s: string): string { "<?" + (target + (" " + (s + "?>"))) }

  predicate Ends(s: string) { |s| >= 2 && s[0] == '?' && s[1] == '>' }

  predicate NoEnd(s: string) { forall i :: 0 <= i <= |s| ==> !Ends(s[i..]) }

  /** A name, but "xml" in no spelling. */
  predicate LegalTarget(enc: Encoding, target: string)
  {
    LegalName(enc, target) && !(|target| == 3 && target[0] in {'x', 'X'} && target[1] in {'m', 'M'} && target[2] in {'l', 'L'})
  }

  /** A target, or that of an XML declaration. */
  predicate AnyTarget(enc: Encoding, target: string) { LegalTarget(enc, target) || target == "xml" }

  function PiToken(target: string): Token { if target == "xml" then XmlDecl else Pi }

  lemma {:induction false} NoEndBehind(s: string, n: nat)
    requires NoEnd(s) && n <= |s|
    ensures NoEnd(s[n..])
  {
    forall i | 0 <= i <= |s| - n ensures !Ends(s[n..][i..]) { assert s[n..][i..] == s[n + i..]; }
  }

  lemma {:induction false} PiParts(tok: Token)
    ensures OtherPart(PiBody(tok)) && OtherPart(PiBodyQuest(tok))
  {
  }

  lemma {:induction false} LegalIsCase(enc: Encoding, w: string)
    requires Utf8(enc) && w != ""
    ensures LegalChar(enc, w) > 0 ==> InvalidCase(enc, w) == Take(LegalChar(enc, w)) || (InvalidCase(enc, w) == NotListed && LegalChar(enc, w) == 1)
    ensures w[0] == '?' || w[0] == '>' ==> InvalidCase(enc, w) == NotListed
    ensures (enc.byteType(w[0]) == QUEST) == (w[0] == '?')
  {
    if w[0] != '\r' { assert enc.byteType(w[0]) == Utf8Type(w[0]); }
  }

  lemma {:induction false} PiMoves(enc: Encoding, tok: Token, w: string)
    requires Utf8(enc) && w != ""
    ensures OtherPart(PiBody(tok)) && OtherPart(PiBodyQuest(tok))
    ensures w[0] == '?' ==> StepOther(enc, PiBody(tok), w) == Go(1, PiBodyQuest(tok))
    ensures w[0] == '>' ==> StepOther(enc, PiBodyQuest(tok), w) == Accept(tok, 1)
    ensures w[0] != '>' ==> StepOther(enc, PiBodyQuest(tok), w) == StepOther(enc, PiBody(tok), w)
    ensures w[0] != '?' && LegalChar(enc, w) > 0 ==> StepOther(enc, PiBody(tok), w) == Go(LegalChar(enc, w), PiBody(tok))
  {
    hide OtherPart; hide InvalidCase;
    PiParts(tok);
    LegalIsCase(enc, w);
    if w[0] != '\r' { assert enc.byteType(w[0]) == Utf8Type(w[0]); }
  }

  lemma {:induction false} PiOver(enc: Encoding, tok: Token, w: string, p: nat)
    requires Utf8(enc) && At(w, p, "?>")
    ensures Scan(enc, PiBody(tok), w, p) == Tok(tok, p + 2)
  {
    hide Scan; hide StepOther; hide Utf8;
    AtFirst(w, p, "?>");
    assert "?>"[1..] == ">";
    AtFirst(w, p + 1, ">");
    PiMoves(enc, tok, w[p..]);
    PiMoves(enc, tok, w[p + 1..]);
    OtherUnfold(enc, PiBody(tok), w, p);
    OtherUnfold(enc, PiBodyQuest(tok), w, p + 1);
  }

  /** One "?" in an instruction. */
  lemma {:induction false} PiQuest(enc: Encoding, tok: Token, w: string, p: nat, s: string)
    requires Utf8(enc) && LegalText(enc, s) && NoEnd(s) && s != "" && s[0] == '?' && At(w, p, s + "?>")
    ensures p < |w| && At(w, p + 1, s[1..] + "?>") && LegalText(enc, s[1..]) && Scan(enc, PiBody(tok), w, p) == Scan(enc, PiBody(tok), w, p + 1)
  {
    hide Scan; hide StepOther; hide Utf8; hide LegalText; hide NoEnd; hide LegalChar; hide At;
    QuestAlone(enc, s);
    assert s + "?>" == [s[0]] + (s[1..] + "?>");
    AtParts(w, p, [s[0]], s[1..] + "?>");
    AtFirst(w, p, [s[0]]);
    AtFirst(w, p + 1, s[1..] + "?>");
    OtherUnfold(enc, PiBody(tok), w, p);
    PiMoves(enc, tok, w[p..]);
    PiMoves(enc, tok, w[p + 1..]);
    OtherUnfold(enc, PiBodyQuest(tok), w, p + 1);
    OtherUnfold(enc, PiBody(tok), w, p + 1);
  }

  lemma {:induction false} PiChar(enc: Encoding, tok: Token, w: string, p: nat, s: string, end: string)
    requires Utf8(enc) && LegalText(enc, s) && s != "" && s[0] != '?' && At(w, p, s + end)
    ensures var n := LegalChar(enc, s);
            0 < n <= |s| && p + n <= |w| && At(w, p + n, s[n..] + end) && LegalText(enc, s[n..]) && Scan(enc, PiBody(tok), w, p) == Scan(enc, PiBody(tok), w, p + n)
  {
    hide Scan; hide StepOther; hide Utf8; hide LegalText; hide LegalChar; hide At;
    LegalFirst(enc, s);
    AtParts(w, p, s, end);
    AtFirst(w, p, s);
    OtherUnfold(enc, PiBody(tok), w, p);
    var n := LegalChar(enc, s);
    LegalCharStable(enc, s, w[p + |s|..]);
    PiMoves(enc, tok, w[p..]);
    assert s + end == s[..n] + (s[n..] + end);
    AtParts(w, p, s[..n], s[n..] + end);
  }

  lemma {:induction false} PiNext(enc: Encoding, tok: Token, w: string, p: nat, s: string) returns (n: nat)
    requires Utf8(enc) && LegalText(enc, s) && NoEnd(s) && s != "" && At(w, p, s + "?>")
    ensures 0 < n <= |s| && p + n <= |w| && At(w, p + n, s[n..] + "?>") && LegalText(enc, s[n..]) && NoEnd(s[n..])
    ensures Scan(enc, PiBody(tok), w, p) == Scan(enc, PiBody(tok), w, p + n)
  {
    hide *;
    if s[0] == '?' {
      n := 1;
      PiQuest(enc, tok, w, p, s);
      IsIn(w, p + 1, s[1..] + "?>");
    } else {
      n := LegalChar(enc, s);
      PiChar(enc, tok, w, p, s, "?>");
    }
    NoEndBehind(s, n);
  }

  lemma {:induction false} PiScan(enc: Encoding, tok: Token, w: string, p: nat, s: string)
    requires Utf8(enc) && LegalText(enc, s) && NoEnd(s) && At(w, p, s + "?>")
    ensures p <= |w| && Scan(enc, PiBody(tok), w, p) == Tok(tok, p + |s| + 2)
    decreases |s|
  {
    hide *;
    IsIn(w, p, s + "?>");
    if s == "" {
      assert s + "?>" == "?>";
      PiOver(enc, tok, w, p);
    } else {
      var n := PiNext(enc, tok, w, p, s);
      PiScan(enc, tok, w, p + n, s[n..]);
    }
  }

  lemma {:induction false} QuestAlone(enc: Encoding, s: string)
    requires Utf8(enc) && LegalText(enc, s) && NoEnd(s) && s != "" && s[0] == '?'
    ensures LegalChar(enc, s) == 1 && LegalText(enc, s[1..]) && (s[1..] + "?>")[0] != '>'
  {
    assert enc.byteType('?') == Utf8Type('?');
    assert !Ends(s[0..]) && s[0..] == s;
  }

  lemma {:induction false} TargetStep(enc: Encoding, target: string, w: string)
    requires w != ""
    ensures NameCase(enc, w).Take? ==> StepOther(enc, PiTarget(target), w) == Go(NameCase(enc, w).n, PiTarget(target + w[..NameCase(enc, w).n]))
    ensures NmstrtCase(enc, w).Take? ==> StepOther(enc, PiOpen, w) == Go(NmstrtCase(enc, w).n, PiTarget(w[..NmstrtCase(enc, w).n]))
    ensures NameCase(enc, w) == NotListed && enc.byteType(w[0]) == S && CheckPiTarget(target).Target? ==> StepOther(enc, PiTarget(target), w) == Go(1, PiBody(CheckPiTarget(target).tok))
  {
    hide NameCase; hide NmstrtCase; hide CheckPiTarget;
  }

  lemma {:induction false} TargetScan(enc: Encoding, w: string, p: nat, done: string, part: string)
    requires At(w, p, part) && NameRest(enc, part)
    ensures p + |part| <= |w| && Scan(enc, PiTarget(done), w, p) == Scan(enc, PiTarget(done + part), w, p + |part|)
    decreases |part|
  {
    hide *;
    IsIn(w, p, part);
    if part == "" {
      assert done + part == done;
    } else {
      var n := TargetChar(enc, w, p, done, part);
      TargetScan(enc, w, p + n, done + part[..n], part[n..]);
      assert done + part[..n] + part[n..] == done + part;
    }
  }

  lemma {:induction false} TargetChar(enc: Encoding, w: string, p: nat, done: string, part: string) returns (n: nat)
    requires At(w, p, part) && part != "" && NameRest(enc, part)
    ensures 0 < n <= |part| && NameRest(enc, part[n..]) && At(w, p + n, part[n..])
    ensures p + n <= |w| && Scan(enc, PiTarget(done), w, p) == Scan(enc, PiTarget(done + part[..n]), w, p + n)
  {
    hide Scan; hide StepOther; hide NameCase; hide At;
    IsIn(w, p, part);
    AtFirst(w, p, part);
    CharCasesStable(enc, part, w[p + |part|..]);
    n := NameCase(enc, part).n;
    TargetStep(enc, done, w[p..]);
    OtherUnfold(enc, PiTarget(done), w, p);
    AtParts(w, p, part[..n], part[n..]) by { assert part == part[..n] + part[n..]; }
    assert w[p..][..n] == part[..n];
  }

  lemma {:induction false} TargetChecked(enc: Encoding, target: string)
    requires AnyTarget(enc, target)
    ensures CheckPiTarget(target) == Target(PiToken(target))
  {
    hide LegalName;
    if |target| == 3 {
      assert "xX"[0] == 'x' && "xX"[1] == 'X' && "mM"[0] == 'm' && "mM"[1] == 'M' && "lL"[0] == 'l' && "lL"[1] == 'L';
    }
  }

  /** The target, and the space behind it. */
  lemma {:induction false} TargetTaken(enc: Encoding, w: string, target: string)
    requires LegalName(enc, target) && At(w, 2, target)
    ensures 2 + |target| <= |w| && Scan(enc, PiOpen, w, 2) == Scan(enc, PiTarget(target), w, 2 + |target|)
  {
    hide Scan; hide StepOther; hide NameRest; hide NmstrtCase; hide NameCase; hide At;
    AtFirst(w, 2, target);
    CharCasesStable(enc, target, w[2 + |target|..]);
    var n := NmstrtCase(enc, target).n;
    OtherUnfold(enc, PiOpen, w, 2);
    TargetStep(enc, "", w[2..]);
    AtParts(w, 2, target[..n], target[n..]) by { assert target == target[..n] + target[n..]; }
    assert w[2..][..n] == target[..n];
    TargetScan(enc, w, 2 + n, target[..n], target[n..]);
    assert target[..n] + target[n..] == target;
  }

  lemma {:induction false} TargetLeft(enc: Encoding, w: string, p: nat, target: string)
    requires Utf8(enc) && AnyTarget(enc, target) && p < |w| && w[p] == ' '
    ensures Scan(enc, PiTarget(target), w, p) == Scan(enc, PiBody(PiToken(target)), w, p + 1)
  {
    hide Scan; hide StepOther; hide Utf8; hide NameCase; hide NmstrtCase; hide CheckPiTarget; hide AnyTarget;
    Types(enc);
    assert w[p..][0] == ' ';
    NotName(enc, w[p..]);
    TargetChecked(enc, target);
    TargetStep(enc, target, w[p..]);
    OtherUnfold(enc, PiTarget(target), w, p);
  }

  lemma {:induction false} PiFromOpen(enc: Encoding, w: string, target: string, s: string)
    requires Utf8(enc) && AnyTarget(enc, target) && LegalText(enc, s) && NoEnd(s) && At(w, 2, target + (" " + (s + "?>")))
    ensures Scan(enc, PiOpen, w, 2) == Tok(PiToken(target), 2 + |target| + |s| + 3)
  {
    hide *;
    AtParts(w, 2, target, " " + (s + "?>"));
    TargetNamed(enc, target);
    TargetTaken(enc, w, target);
    var p := 2 + |target|;
    AtParts(w, p, " ", s + "?>");
    AtFirst(w, p, " ");
    TargetLeft(enc, w, p, target);
    PiScan(enc, PiToken(target), w, p + 1, s);
  }

  lemma {:induction false} TargetNamed(enc: Encoding, target: string)
    requires Utf8(enc) && AnyTarget(enc, target)
    ensures LegalName(enc, target)
  {
    if target == "xml" {
      assert target[0] == 'x' && target[1] == 'm' && target[2] == 'l' && enc.byteType('x') == Utf8Type('x') && enc.byteType('m') == Utf8Type('m') && enc.byteType('l') == Utf8Type('l');
      assert target[1..][0] == 'm' && target[1..][1..][0] == 'l' && target[1..][1..][1..] == "";
    }
  }

  lemma {:induction false} InstructionTok(enc: Encoding, target: string, s: string, rest: string)
    requires Utf8(enc) && AnyTarget(enc, target) && LegalText(enc, s) && NoEnd(s)
    ensures ContentTok(enc, Instruction(target, s) + rest) == Tok(PiToken(target), |Instruction(target, s)|)
    ensures Scan(enc, PiOpen, Instruction(target, s) + rest, 2) == Tok(PiToken(target), |Instruction(target, s)|)
  {
    hide Scan; hide Utf8; hide LegalText; hide NoEnd; hide AnyTarget; hide ContentTok;
    var w := Instruction(target, s) + rest;
    assert At(w, 0, "<?" + (target + (" " + (s + "?>"))));
    AtParts(w, 0, "<?", target + (" " + (s + "?>")));
    QuestOpens(enc, w);
    PiFromOpen(enc, w, target, s);
  }

  lemma {:induction false} QuestOpens(enc: Encoding, w: string)
    requires Utf8(enc) && |w| > 1 && w[0] == '<' && w[1] == '?'
    ensures ContentTok(enc, w) == Scan(enc, PiOpen, w, 2)
  {
    hide Scan; hide Utf8; hide NmstrtCase; hide DataRun;
    assert w[1..][0] == '?';
    Types(enc);
    NotName(enc, w[1..]);
    TagUnfold(enc, LtOpen, w, 1);
  }

  // ---- In content ----

  lemma {:induction false} Silent(env: Env, at: Place, prolog: Prolog, tags: seq<string>, w: string, n: nat, f: bool)
    requires n <= |w| && (ContentTok(at.enc, w) == Tok(Comment, n) || ContentTok(at.enc, w) == Tok(Pi, n))
    ensures In(env, at, prolog, tags, w, f) == In(env, at, prolog, tags, w[n..], f)
  {
    hide ContentTok; hide Cdata; hide Epilog; hide Expand; hide XmlContent.Tag;
    ContentOfToken(env, prolog, at.open, at.enc, at.base, tags, w, f);
    NothingThen(In(env, at, prolog, tags, w[n..], f));
  }

  /** Of a comment nothing is reported. */
  lemma {:induction false} RemarkParsed(env: Env, at: Place, prolog: Prolog, tags: seq<string>, s: string, rest: string, f: bool)
    requires Utf8(at.enc) && LegalText(at.enc, s) && NoDashes(s)
    ensures In(env, at, prolog, tags, Remark(s) + rest, f) == In(env, at, prolog, tags, rest, f)
  {
    hide ContentTok; hide In; hide Utf8; hide LegalText; hide NoDashes;
    var w := Remark(s) + rest;
    RemarkTok(at.enc, s, rest);
    assert w[|Remark(s)|..] == rest;
    Silent(env, at, prolog, tags, w, |Remark(s)|, f);
  }

  lemma {:induction false} OtherTarget(enc: Encoding, target: string)
    requires LegalTarget(enc, target)
    ensures PiToken(target) == Pi
  {
  }

  /** Nor of a processing instruction. */
  lemma {:induction false} InstructionParsed(env: Env, at: Place, prolog: Prolog, tags: seq<string>, target: string, s: string, rest: string, f: bool)
    requires Utf8(at.enc) && LegalTarget(at.enc, target) && LegalText(at.enc, s) && NoEnd(s)
    ensures In(env, at, prolog, tags, Instruction(target, s) + rest, f) == In(env, at, prolog, tags, rest, f)
  {
    hide ContentTok; hide In; hide Utf8; hide LegalText; hide NoEnd; hide LegalTarget;
    var w := Instruction(target, s) + rest;
    InstructionTok(at.enc, target, s, rest);
    OtherTarget(at.enc, target);
    assert w[|Instruction(target, s)|..] == rest;
    Silent(env, at, prolog, tags, w, |Instruction(target, s)|, f);
  }
}
