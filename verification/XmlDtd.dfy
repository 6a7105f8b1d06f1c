/**
 A document type declaration as bytes: written down with a space behind every
 token, it is read token for token by prologTok and prologProcessor
 (libjabber/xmltok_impl_c.h, libjabber/xmlparse.c), and the root element is
 parsed with the DTD it declares.
 */
module XmlDtd {
  import opened XmlScan
  import opened XmlTok
  import opened XmlAtts
  import opened XmlValue
  import opened XmlContent
  import opened XmlChunks
  import opened XmlTree
  import opened XmlPrinted
  import opened XmlRoundTrip
  import opened XmlMarkup
  import opened XmlEntities
  import opened XmlProlog
  import opened XmlDeclarations
  import opened XmlDeclared
  import XmlRole

  // ---- How tokens are spelled ----

  predicate Capital(c: char) { 'A' <= c <= 'Z' }

  predicate Capitals(s: string) { s != "" && forall i :: 0 <= i < |s| ==> Capital(s[i]) }

  /** A name token that is no name. */
  predicate LegalNmtoken(enc: Encoding, s: string)
  {
    s != "" && !NmstrtCase(enc, s).Take? && NmstrtCase(enc, s) != Bad && NameRest(enc, s) && (LeadLength(enc.byteType(s[0])) == 0)
  }

  /** A quoted text. */
  predicate IsLiteral(enc: Encoding, s: string)
  {
    && |s| >= 2 && (s[0] == '\"' || s[0] == '\'') && s[|s| - 1] == s[0]
    && LegalText(enc, s[1..|s| - 1]) && s[0] !in s[1..|s| - 1]
  }

  predicate Suffixed(enc: Encoding, s: string, c: char) { |s| >= 2 && s[|s| - 1] == c && LegalName(enc, s[..|s| - 1]) }

  /** The text of a token is what the tokenizer takes for it, in front of white space. */
  ghost predicate Fits(enc: Encoding, x: XmlRole.Lexeme)
  {
    match x.tok
    case Name => LegalName(enc, x.text)
    case Nmtoken => LegalNmtoken(enc, x.text)
    case NameQuestion => Suffixed(enc, x.text, '?')
    case NameAsterisk => Suffixed(enc, x.text, '*')
    case NamePlus => Suffixed(enc, x.text, '+')
    case Literal => IsLiteral(enc, x.text)
    case DeclOpen => |x.text| > 2 && x.text[..2] == "<!" && Capitals(x.text[2..])
    case PoundName => |x.text| > 1 && x.text[0] == '#' && LegalName(enc, x.text[1..])
    case ParamEntityRef => |x.text| > 2 && x.text[0] == '%' && x.text[|x.text| - 1] == ';' && LegalName(enc, x.text[1..|x.text| - 1])
    case DeclClose => x.text == ">"
    case OpenBracket => x.text == "["
    case CloseBracket => x.text == "]"
    case OpenParen => x.text == "("
    case CloseParen => x.text == ")"
    case CloseParenQuestion => x.text == ")?"
    case CloseParenAsterisk => x.text == ")*"
    case CloseParenPlus => x.text == ")+"
    case Or => x.text == "|"
    case Comma => x.text == ","
    case Percent => x.text == "%"
    case Comment => exists s :: LegalText(enc, s) && NoDashes(s) && x.text == Remark(s)
    case XmlDecl => exists s :: LegalText(enc, s) && NoEnd(s) && x.text == Instruction("xml", s)
    case Pi => exists target, s :: LegalTarget(enc, target) && LegalText(enc, s) && NoEnd(s) && x.text == Instruction(target, s)
    case _ => false
  }

  // ---- Names ----

  /** The states that take a name in the prolog. */
  predicate PrologLoop(q: State) { q.PrologName? || q.PercentName? || q.PoundNameRest? }

  lemma {:induction false} PrologNameStep(enc: Encoding, q: State, w: string)
    requires w != "" && PrologLoop(q) && NameCase(enc, w).Take?
    ensures StepProlog(enc, q, w) == Go(NameCase(enc, w).n, q)
  {
    hide NameCase; hide NmstrtCase;
  }

  lemma {:induction false} PrologNameScan(enc: Encoding, q: State, w: string, p: nat, part: string)
    requires XmlPrinted.At(w, p, part) && PrologLoop(q) && NameRest(enc, part)
    ensures p + |part| <= |w| && Scan(enc, q, w, p) == Scan(enc, q, w, p + |part|)
    decreases |part|
  {
    hide Scan; hide StepProlog; hide NameCase; hide XmlPrinted.At;
    IsIn(w, p, part);
    if part != "" {
      AtFirst(w, p, part);
      CharCasesStable(enc, part, w[p + |part|..]);
      var n := NameCase(enc, part).n;
      PrologNameStep(enc, q, w[p..]);
      PrologUnfold(enc, q, w, p);
      AtParts(w, p, part[..n], part[n..]) by { assert part == part[..n] + part[n..]; }
      PrologNameScan(enc, q, w, p + n, part[n..]);
    }
  }

  /** What ends a name in the prolog. */
  lemma {:induction false} NameEnds(enc: Encoding, w: string, p: nat)
    requires Utf8(enc) && p < |w|
    ensures w[p] == ' ' ==> forall t: Token :: Scan(enc, PrologName(t), w, p) == Tok(t, p)
    ensures w[p] == ' ' ==> Scan(enc, PoundNameRest, w, p) == Tok(PoundName, p)
    ensures w[p] == ';' ==> Scan(enc, PercentName, w, p) == Tok(ParamEntityRef, p + 1)
    ensures w[p] == '?' ==> Scan(enc, PrologName(Name), w, p) == Tok(NameQuestion, p + 1)
    ensures w[p] == '*' ==> Scan(enc, PrologName(Name), w, p) == Tok(NameAsterisk, p + 1)
    ensures w[p] == '+' ==> Scan(enc, PrologName(Name), w, p) == Tok(NamePlus, p + 1)
  {
    hide Scan; hide StepProlog;
    if w[p] in {' ', ';', '?', '*', '+'} {
      EndSteps(enc, w[p..]);
      forall t: Token ensures w[p] == ' ' ==> Scan(enc, PrologName(t), w, p) == Tok(t, p) { PrologUnfold(enc, PrologName(t), w, p); EndSteps(enc, w[p..]); }
      PrologUnfold(enc, PoundNameRest, w, p);
      PrologUnfold(enc, PercentName, w, p);
      PrologUnfold(enc, PrologName(Name), w, p);
    }
  }

  lemma {:induction false} EndSteps(enc: Encoding, w: string)
    requires Utf8(enc) && w != "" && w[0] in {' ', ';', '?', '*', '+'}
    ensures w[0] == ' ' ==> (forall t: Token :: StepProlog(enc, PrologName(t), w) == Accept(t, 0)) && StepProlog(enc, PoundNameRest, w) == Accept(PoundName, 0)
    ensures w[0] == ';' ==> StepProlog(enc, PercentName, w) == Accept(ParamEntityRef, 1)
    ensures w[0] == '?' ==> StepProlog(enc, PrologName(Name), w) == Accept(NameQuestion, 1)
    ensures w[0] == '*' ==> StepProlog(enc, PrologName(Name), w) == Accept(NameAsterisk, 1)
    ensures w[0] == '+' ==> StepProlog(enc, PrologName(Name), w) == Accept(NamePlus, 1)
  {
    assert enc.byteType(w[0]) == Utf8Type(w[0]);
  }

  /** A name from its first character on. */
  lemma {:induction false} NameFrom(enc: Encoding, w: string, name: string)
    requires Utf8(enc) && XmlPrinted.At(w, 0, name) && LegalName(enc, name)
    ensures |name| <= |w| && PrologTok(enc, w) == Scan(enc, PrologName(Name), w, |name|)
  {
    hide Scan; hide NameRest; hide NmstrtCase; hide XmlPrinted.At;
    IsIn(w, 0, name);
    AtFirst(w, 0, name);
    CharCasesStable(enc, name, w[|name|..]);
    var n := NmstrtCase(enc, name).n;
    assert w[0..] == w;
    NameFirst(enc, w);
    AtParts(w, 0, name[..n], name[n..]) by { assert name == name[..n] + name[n..]; }
    PrologNameScan(enc, PrologName(Name), w, n, name[n..]);
  }

  lemma {:induction false} NameFirst(enc: Encoding, w: string)
    requires Utf8(enc) && w != "" && NmstrtCase(enc, w).Take?
    ensures PrologTok(enc, w) == Scan(enc, PrologName(Name), w, NmstrtCase(enc, w).n)
  {
    hide Scan;
    if w[0] != '\r' { assert enc.byteType(w[0]) == Utf8Type(w[0]); }
  }

  lemma {:induction false} NameToken(enc: Encoding, name: string, rest: string)
    requires Utf8(enc) && LegalName(enc, name)
    ensures PrologTok(enc, name + (" " + rest)) == Tok(Name, |name|)
    ensures PrologTok(enc, name + ("?" + rest)) == Tok(NameQuestion, |name| + 1)
    ensures PrologTok(enc, name + ("*" + rest)) == Tok(NameAsterisk, |name| + 1)
    ensures PrologTok(enc, name + ("+" + rest)) == Tok(NamePlus, |name| + 1)
  {
    hide PrologTok; hide Scan; hide LegalName; hide Utf8;
    NameFrom(enc, name + (" " + rest), name);
    NameEnds(enc, name + (" " + rest), |name|);
    NameFrom(enc, name + ("?" + rest), name);
    NameEnds(enc, name + ("?" + rest), |name|);
    NameFrom(enc, name + ("*" + rest), name);
    NameEnds(enc, name + ("*" + rest), |name|);
    NameFrom(enc, name + ("+" + rest), name);
    NameEnds(enc, name + ("+" + rest), |name|);
  }

  lemma {:induction false} NmtokenToken(enc: Encoding, s: string, rest: string)
    requires Utf8(enc) && LegalNmtoken(enc, s)
    ensures PrologTok(enc, s + (" " + rest)) == Tok(Nmtoken, |s|)
  {
    hide Scan; hide Utf8; hide NameRest; hide NameCase; hide NmstrtCase;
    var w := s + (" " + rest);
    NmtokenFirst(enc, s, w);
    var n := NameCase(enc, s).n;
    hide PrologTok;
    assert XmlPrinted.At(w, 0, s) && s == s[..n] + s[n..];
    AtParts(w, 0, s[..n], s[n..]);
    PrologNameScan(enc, PrologName(Nmtoken), w, n, s[n..]);
    NameEnds(enc, w, |s|);
  }

  lemma {:induction false} NmtokenFirst(enc: Encoding, s: string, w: string)
    requires Utf8(enc) && LegalNmtoken(enc, s) && w != "" && w[0] == s[0]
    ensures NameCase(enc, s) == Take(1) && NameRest(enc, s[1..]) && PrologTok(enc, w) == Scan(enc, PrologName(Nmtoken), w, 1)
  {
    hide Scan;
    if s[0] != '\r' { assert enc.byteType(s[0]) == Utf8Type(s[0]); }
  }

  // ---- Literals ----

  function QuoteType(c: char): ByteType { if c == '\"' then QUOT else APOS }

  lemma {:induction false} LitStep(enc: Encoding, c: char, w: string)
    requires Utf8(enc) && w != "" && (c == '\"' || c == '\'')
    ensures LegalChar(enc, w) > 0 && w[0] != c ==> StepProlog(enc, LitBody(QuoteType(c)), w) == Go(LegalChar(enc, w), LitBody(QuoteType(c)))
    ensures w[0] == c ==> StepProlog(enc, LitBody(QuoteType(c)), w) == Go(1, LitEnd)
    ensures w[0] == ' ' ==> StepProlog(enc, LitEnd, w) == Accept(Literal, 0)
  {
    if w[0] != '\r' { assert enc.byteType(w[0]) == Utf8Type(w[0]); OnlyQuote(w[0]); }
  }

  lemma {:induction false} OnlyQuote(c: char)
    ensures (Utf8Type(c) == QUOT <==> c == '\"') && (Utf8Type(c) == APOS <==> c == '\'')
  {
  }

  lemma {:induction false} LitScan(enc: Encoding, c: char, w: string, p: nat, v: string)
    requires Utf8(enc) && (c == '\"' || c == '\'') && LegalText(enc, v) && c !in v && XmlPrinted.At(w, p, v)
    ensures p + |v| <= |w| && Scan(enc, LitBody(QuoteType(c)), w, p) == Scan(enc, LitBody(QuoteType(c)), w, p + |v|)
    decreases |v|
  {
    hide Scan; hide StepProlog; hide LegalText; hide LegalChar; hide Utf8; hide XmlPrinted.At; hide QuoteType;
    IsIn(w, p, v);
    if v != "" {
      LegalFirst(enc, v);
      var n := LegalChar(enc, v);
      AtFirst(w, p, v);
      LegalCharStable(enc, v, w[p + |v|..]);
      LitStep(enc, c, w[p..]);
      PrologUnfold(enc, LitBody(QuoteType(c)), w, p);
      AtParts(w, p, v[..n], v[n..]) by { assert v == v[..n] + v[n..]; }
      LitScan(enc, c, w, p + n, v[n..]);
    }
  }

  lemma {:induction false} LiteralToken(enc: Encoding, s: string, rest: string)
    requires Utf8(enc) && IsLiteral(enc, s)
    ensures PrologTok(enc, s + (" " + rest)) == Tok(Literal, |s|)
  {
    hide Scan; hide StepProlog; hide LegalText; hide Utf8;
    var w, c, v := s + (" " + rest), s[0], s[1..|s| - 1];
    QuoteOpens(enc, w);
    hide PrologTok;
    assert s == [c] + (v + [c]) && XmlPrinted.At(w, 0, [c] + (v + [c]));
    AtParts(w, 0, [c], v + [c]);
    AtParts(w, 1, v, [c]);
    LitScan(enc, c, w, 1, v);
    var p := 1 + |v|;
    assert w[p] == c && w[p + 1] == ' ' && w[p..][0] == c && w[p + 1..][0] == ' ';
    LitStep(enc, c, w[p..]);
    LitStep(enc, c, w[p + 1..]);
    PrologUnfold(enc, LitBody(QuoteType(c)), w, p);
    PrologUnfold(enc, LitEnd, w, p + 1);
  }

  lemma {:induction false} QuoteOpens(enc: Encoding, w: string)
    requires Utf8(enc) && w != "" && (w[0] == '\"' || w[0] == '\'')
    ensures PrologTok(enc, w) == Scan(enc, LitBody(QuoteType(w[0])), w, 1)
  {
    hide Scan;
    assert enc.byteType(w[0]) == Utf8Type(w[0]);
  }

  // ---- Other tokens ----

  lemma {:induction false} CapitalType(enc: Encoding, c: char)
    requires Utf8(enc) && Capital(c)
    ensures enc.byteType(c) == NMSTRT || enc.byteType(c) == HEX
  {
    assert c != '\r' && enc.byteType(c) == Utf8Type(c);
  }

  lemma {:induction false} DeclStep(enc: Encoding, w: string)
    requires Utf8(enc) && w != ""
    ensures Capital(w[0]) ==> StepProlog(enc, DeclStart, w) == Go(1, DeclName) == StepProlog(enc, DeclName, w)
    ensures w[0] == ' ' ==> StepProlog(enc, DeclName, w) == Accept(DeclOpen, 0)
    ensures w[0] == '-' ==> StepProlog(enc, DeclStart, w) == Go(1, CommentOpen)
  {
    if Capital(w[0]) { CapitalType(enc, w[0]); }
    Types(enc);
  }

  lemma {:induction false} DeclScan(enc: Encoding, w: string, p: nat, s: string)
    requires Utf8(enc) && XmlPrinted.At(w, p, s) && forall i :: 0 <= i < |s| ==> Capital(s[i])
    ensures p + |s| <= |w| && Scan(enc, DeclName, w, p) == Scan(enc, DeclName, w, p + |s|)
    decreases |s|
  {
    hide Scan; hide StepProlog; hide Utf8; hide Capital; hide XmlPrinted.At;
    IsIn(w, p, s);
    if s != "" {
      AtFirst(w, p, s);
      DeclStep(enc, w[p..]);
      PrologUnfold(enc, DeclName, w, p);
      DeclScan(enc, w, p + 1, s[1..]);
    }
  }

  lemma {:induction false} LtExclaims(enc: Encoding, w: string)
    requires Utf8(enc) && |w| > 1 && w[0] == '<'
    ensures w[1] == '!' ==> PrologTok(enc, w) == Scan(enc, DeclStart, w, 2)
    ensures w[1] == '?' ==> PrologTok(enc, w) == Scan(enc, PiOpen, w, 2)
    ensures NmstrtCase(enc, w[1..]).Take? ==> PrologTok(enc, w) == Tok(InstanceStart, 0)
  {
    hide Scan;
    Types(enc);
    if w[1] != '\r' { assert enc.byteType(w[1]) == Utf8Type(w[1]); }
  }

  lemma {:induction false} OpenToken(enc: Encoding, s: string, rest: string)
    requires Utf8(enc) && |s| > 2 && s[..2] == "<!" && Capitals(s[2..])
    ensures PrologTok(enc, s + (" " + rest)) == Tok(DeclOpen, |s|)
  {
    hide Scan; hide StepProlog; hide Utf8; hide PrologTok; hide Capital;
    var w, word := s + (" " + rest), s[2..];
    assert s == "<!" + word && w[0] == '<' && w[1] == '!' && XmlPrinted.At(w, 0, "<!" + word);
    AtParts(w, 0, "<!", word);
    AtFirst(w, 2, word);
    LtExclaims(enc, w);
    DeclStep(enc, w[2..]);
    PrologUnfold(enc, DeclStart, w, 2);
    DeclScan(enc, w, 3, word[1..]);
    assert w[|s|] == ' ' && w[|s|..][0] == ' ';
    DeclStep(enc, w[|s|..]);
    PrologUnfold(enc, DeclName, w, |s|);
  }

  lemma {:induction false} PoundStep(enc: Encoding, w: string)
    requires w != "" && NmstrtCase(enc, w).Take?
    ensures StepProlog(enc, PoundOpen, w) == Go(NmstrtCase(enc, w).n, PoundNameRest) && StepProlog(enc, PercentOpen, w) == Go(NmstrtCase(enc, w).n, PercentName)
  {
    hide NmstrtCase; hide NameCase;
  }

  lemma {:induction false} SignTypes(enc: Encoding)
    requires Utf8(enc)
    ensures enc.byteType('#') == NUM && enc.byteType('%') == PERCNT && enc.byteType('>') == GT && enc.byteType('(') == LPAR && enc.byteType(')') == RPAR
    ensures enc.byteType('|') == VERBAR && enc.byteType(',') == COMMA && enc.byteType('*') == AST && enc.byteType('+') == PLUS
  {
    hide Utf8Type;
    SignsAre();
    assert enc.byteType('#') == Utf8Type('#') && enc.byteType('%') == Utf8Type('%') && enc.byteType('>') == Utf8Type('>') && enc.byteType('(') == Utf8Type('(');
    assert enc.byteType(')') == Utf8Type(')') && enc.byteType('|') == Utf8Type('|') && enc.byteType(',') == Utf8Type(',') && enc.byteType('*') == Utf8Type('*');
    assert enc.byteType('+') == Utf8Type('+');
  }

  lemma {:induction false} SignsAre()
    ensures Utf8Type('#') == NUM && Utf8Type('%') == PERCNT && Utf8Type('>') == GT && Utf8Type('(') == LPAR && Utf8Type(')') == RPAR
    ensures Utf8Type('|') == VERBAR && Utf8Type(',') == COMMA && Utf8Type('*') == AST && Utf8Type('+') == PLUS
  {
  }

  lemma {:induction false} SignOpens(enc: Encoding, w: string)
    requires Utf8(enc) && w != ""
    ensures w[0] == '#' ==> PrologTok(enc, w) == Scan(enc, PoundOpen, w, 1)
    ensures w[0] == '%' ==> PrologTok(enc, w) == Scan(enc, PercentOpen, w, 1)
    ensures w[0] == '>' ==> PrologTok(enc, w) == Tok(DeclClose, 1)
    ensures w[0] == '(' ==> PrologTok(enc, w) == Tok(OpenParen, 1)
    ensures w[0] == '|' ==> PrologTok(enc, w) == Tok(Or, 1)
    ensures w[0] == ',' ==> PrologTok(enc, w) == Tok(Comma, 1)
  {
    hide Scan;
    SignTypes(enc);
  }

  /** A name behind a sign. */
  lemma {:induction false} SignedName(enc: Encoding, w: string, name: string, q: State, loop: State)
    requires XmlPrinted.At(w, 1, name) && LegalName(enc, name) && ((q == PoundOpen && loop == PoundNameRest) || (q == PercentOpen && loop == PercentName))
    ensures 1 + |name| <= |w| && Scan(enc, q, w, 1) == Scan(enc, loop, w, 1 + |name|)
  {
    hide Scan; hide StepProlog; hide NameRest; hide NmstrtCase; hide XmlPrinted.At;
    IsIn(w, 1, name);
    AtFirst(w, 1, name);
    CharCasesStable(enc, name, w[1 + |name|..]);
    var n := NmstrtCase(enc, name).n;
    PoundStep(enc, w[1..]);
    PrologUnfold(enc, q, w, 1);
    AtParts(w, 1, name[..n], name[n..]) by { assert name == name[..n] + name[n..]; }
    PrologNameScan(enc, loop, w, 1 + n, name[n..]);
  }

  lemma {:induction false} PoundToken(enc: Encoding, name: string, rest: string)
    requires Utf8(enc) && LegalName(enc, name)
    ensures PrologTok(enc, "#" + (name + (" " + rest))) == Tok(PoundName, 1 + |name|)
  {
    hide Scan; hide Utf8; hide LegalName; hide PrologTok;
    var w := "#" + (name + (" " + rest));
    SignOpens(enc, w);
    SignedName(enc, w, name, PoundOpen, PoundNameRest);
    NameEnds(enc, w, 1 + |name|);
  }

  lemma {:induction false} ParameterToken(enc: Encoding, name: string, rest: string)
    requires Utf8(enc) && LegalName(enc, name)
    ensures PrologTok(enc, "%" + (name + (";" + rest))) == Tok(ParamEntityRef, 2 + |name|)
  {
    hide Scan; hide Utf8; hide LegalName; hide PrologTok;
    var w := "%" + (name + (";" + rest));
    SignOpens(enc, w);
    SignedName(enc, w, name, PercentOpen, PercentName);
    NameEnds(enc, w, 1 + |name|);
  }

  lemma {:induction false} PercentToken(enc: Encoding, rest: string)
    requires Utf8(enc)
    ensures PrologTok(enc, "% " + rest) == Tok(Percent, 1)
  {
    hide Scan; hide PrologTok; hide StepProlog;
    var w := "% " + rest;
    SignOpens(enc, w);
    assert w[1..][0] == ' ';
    SpacePercent(enc, w[1..]);
    PrologUnfold(enc, PercentOpen, w, 1);
  }

  lemma {:induction false} SpacePercent(enc: Encoding, w: string)
    requires Utf8(enc) && w != "" && w[0] == ' '
    ensures StepProlog(enc, PercentOpen, w) == Accept(Percent, 0)
  {
    Types(enc);
    NotName(enc, w);
  }

  lemma {:induction false} BracketTokens(enc: Encoding, rest: string)
    requires Utf8(enc)
    ensures PrologTok(enc, "[ " + rest) == Tok(OpenBracket, 1) && PrologTok(enc, "] " + rest) == Tok(CloseBracket, 1)
  {
    hide Scan;
    Types(enc);
    assert ("] " + rest)[1] == ' ';
  }

  lemma {:induction false} ParenTokens(enc: Encoding, rest: string)
    requires Utf8(enc)
    ensures PrologTok(enc, ") " + rest) == Tok(CloseParen, 1) && PrologTok(enc, ")?" + rest) == Tok(CloseParenQuestion, 2)
    ensures PrologTok(enc, ")*" + rest) == Tok(CloseParenAsterisk, 2) && PrologTok(enc, ")+" + rest) == Tok(CloseParenPlus, 2)
  {
    hide Scan; hide CloseParenTok;
    Types(enc);
    SignTypes(enc);
    ParenToken(enc, ") " + rest);
    ParenToken(enc, ")?" + rest);
    ParenToken(enc, ")*" + rest);
    ParenToken(enc, ")+" + rest);
  }

  lemma {:induction false} ParenToken(enc: Encoding, w: string)
    requires Utf8(enc) && |w| > 1 && w[0] == ')' && w[1] in {' ', '?', '*', '+'}
    ensures CloseParenTok(enc, w) == match w[1] case ' ' => Tok(CloseParen, 1) case '?' => Tok(CloseParenQuestion, 2) case '*' => Tok(CloseParenAsterisk, 2)
                                                  case _ => Tok(CloseParenPlus, 2)
  {
    Types(enc);
    SignTypes(enc);
  }

  lemma {:induction false} AsideTokens(enc: Encoding, s: string, rest: string)
    requires Utf8(enc) && LegalText(enc, s)
    ensures NoDashes(s) ==> PrologTok(enc, Remark(s) + rest) == Tok(Comment, |Remark(s)|)
    ensures NoEnd(s) ==> forall target :: AnyTarget(enc, target) ==> PrologTok(enc, Instruction(target, s) + rest) == Tok(PiToken(target), |Instruction(target, s)|)
  {
    hide Scan; hide Utf8; hide LegalText; hide NoDashes; hide NoEnd; hide AnyTarget; hide PrologTok; hide StepProlog; hide ContentTok;
    if NoDashes(s) {
      var w := Remark(s) + rest;
      assert w[0] == '<' && w[1] == '!' && w[2] == '-' && w[2..][0] == '-';
      RemarkTok(enc, s, rest);
      LtExclaims(enc, w);
      DeclStep(enc, w[2..]);
      PrologUnfold(enc, DeclStart, w, 2);
    }
    if NoEnd(s) {
      forall target | AnyTarget(enc, target) ensures PrologTok(enc, Instruction(target, s) + rest) == Tok(PiToken(target), |Instruction(target, s)|) {
        var w := Instruction(target, s) + rest;
        assert w[0] == '<' && w[1] == '?';
        InstructionTok(enc, target, s, rest);
        LtExclaims(enc, w);
      }
    }
  }

  // ---- Any token ----

  lemma {:induction false} SuffixedToken(enc: Encoding, x: XmlRole.Lexeme, rest: string)
    requires Utf8(enc) && Fits(enc, x) && x.tok in {NameQuestion, NameAsterisk, NamePlus, PoundName, ParamEntityRef}
    ensures PrologTok(enc, x.text + (" " + rest)) == Tok(x.tok, |x.text|)
  {
    hide PrologTok; hide LegalName; hide Utf8;
    var w, s := x.text + (" " + rest), x.text;
    if x.tok == PoundName {
      PoundToken(enc, s[1..], rest);
      assert w == "#" + (s[1..] + (" " + rest));
    } else if x.tok == ParamEntityRef {
      ParameterToken(enc, s[1..|s| - 1], " " + rest);
      assert w == "%" + (s[1..|s| - 1] + (";" + (" " + rest)));
    } else {
      var name := s[..|s| - 1];
      NameToken(enc, name, " " + rest);
      assert w == name + ([s[|s| - 1]] + (" " + rest));
    }
  }

  lemma {:induction false} SignToken(enc: Encoding, x: XmlRole.Lexeme, rest: string)
    requires Utf8(enc) && Fits(enc, x)
    requires x.tok in {DeclClose, OpenBracket, CloseBracket, OpenParen, CloseParen, CloseParenQuestion, CloseParenAsterisk, CloseParenPlus, Or, Comma, Percent}
    ensures PrologTok(enc, x.text + (" " + rest)) == Tok(x.tok, |x.text|)
  {
    hide PrologTok; hide Utf8;
    var w := x.text + (" " + rest);
    SignOpens(enc, w);
    BracketTokens(enc, rest);
    ParenTokens(enc, rest);
    ParenTokens(enc, " " + rest);
    PercentToken(enc, rest);
    assert "[" + (" " + rest) == "[ " + rest && "]" + (" " + rest) == "] " + rest && ")" + (" " + rest) == ") " + rest && "%" + (" " + rest) == "% " + rest;
  }

  /** Every token is read as it is written. */
  lemma {:induction false} AnyToken(enc: Encoding, x: XmlRole.Lexeme, rest: string)
    requires Utf8(enc) && Fits(enc, x)
    ensures PrologTok(enc, x.text + (" " + rest)) == Tok(x.tok, |x.text|) && x.text != ""
  {
    hide PrologTok; hide Utf8; hide LegalText; hide IsLiteral; hide NoDashes; hide NoEnd; hide LegalTarget; hide NameRest; hide NmstrtCase; hide NameCase;
    match x.tok
    case Name => NameToken(enc, x.text, rest);
    case Nmtoken => NmtokenToken(enc, x.text, rest);
    case Literal => LiteralToken(enc, x.text, rest); LiteralStarts(enc, x.text);
    case DeclOpen => OpenToken(enc, x.text, rest);
    case Comment =>
      var s :| LegalText(enc, s) && NoDashes(s) && x.text == Remark(s);
      AsideTokens(enc, s, " " + rest);
    case Pi =>
      var target, s :| LegalTarget(enc, target) && LegalText(enc, s) && NoEnd(s) && x.text == Instruction(target, s);
      OtherTarget(enc, target);
      AsideTokens(enc, s, " " + rest);
    case XmlDecl =>
      var s :| LegalText(enc, s) && NoEnd(s) && x.text == Instruction("xml", s);
      assert AnyTarget(enc, "xml") && PiToken("xml") == XmlDecl;
      AsideTokens(enc, s, " " + rest);
    case NameQuestion | NameAsterisk | NamePlus | PoundName | ParamEntityRef => SuffixedToken(enc, x, rest);
    case _ => SignToken(enc, x, rest);
  }

  lemma {:induction false} LiteralStarts(enc: Encoding, s: string)
    requires IsLiteral(enc, s)
    ensures s != ""
  {
  }
}
