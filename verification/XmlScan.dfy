/**
 The tokenizer of the XML engine (libjabber/xmltok_impl_c.h, single-byte units)
 as a deterministic scanner automaton.

 `Step` looks at the unread bytes and answers in one of four ways: more bytes
 are needed, move on, token complete, byte not allowed.  `Scan` drives it to a
 verdict.  The loops of the C functions are in XmlTokImpl and are proved equal
 to `Scan`; the laws that matter to an incremental parser are proved here.

 A byte is a `char` (below 256).  As in the C structure, an encoding is a table
 of byte types plus predicates on multi-byte characters; every law holds for
 every such table.
 */
module XmlScan {

  datatype ByteType =
    | NONXML | MALFORM | LT | AMP | RSQB | LEAD2 | LEAD3 | LEAD4 | TRAIL | CR | LF
    | GT | QUOT | APOS | EQUALS | QUEST | EXCL | SOL | SEMI | NUM | LSQB | S
    | NMSTRT | HEX | DIGIT | NAME | MINUS | OTHER | NONASCII | PERCNT
    | LPAR | RPAR | AST | PLUS | COMMA | VERBAR

  datatype Encoding = Encoding(
    byteType: char -> ByteType,
    isName: string -> bool,
    isNmstrt: string -> bool,
    isInvalid: string -> bool)

  datatype Token =
    | StartTagWithAtts | StartTagNoAtts | EmptyElementWithAtts | EmptyElementNoAtts | EndTag
    | DataChars | DataNewline | CdataSectOpen | EntityRef | CharRef
    | Pi | XmlDecl | Comment | PrologS | DeclOpen | DeclClose | Name | Nmtoken | PoundName
    | Or | Percent | OpenParen | CloseParen | OpenBracket | CloseBracket | Literal | ParamEntityRef
    | InstanceStart | NameQuestion | NameAsterisk | NamePlus | CondSectOpen | CondSectClose
    | CloseParenQuestion | CloseParenAsterisk | CloseParenPlus | Comma
    | AttributeValueS | CdataSectClose

  /** What a tokenizer function returns: a token and where the next one starts,
      the position of a byte that is not allowed, or one of the "not yet" answers. */
  datatype Verdict =
    | Tok(tok: Token, next: nat)
    | Invalid(at: nat)
    | Partial
    | PartialChar
    | NoBytes
    | TrailingCr
    | TrailingRsqb
  {
    predicate Final() { Tok? || Invalid? }
  }

  /** Where a reference is scanned: in content, or inside an attribute value opened by a quote. */
  datatype RefContext = InContent | InValue(open: ByteType)

  datatype State =
    | CommentOpen | CommentBody | CommentMinus | CommentMinusMinus
    | DeclStart | DeclName
    | PiOpen | PiTarget(target: string) | PiTargetQuest(piTok: Token) | PiBody(piTok: Token) | PiBodyQuest(piTok: Token)
    | CdataOpen
    | EndTagOpen | EndTagName | EndTagSpace
    | RefOpen(ctx: RefContext) | RefName(ctx: RefContext)
    | CharRefOpen(ctx: RefContext) | CharRefDec(ctx: RefContext)
    | HexRefOpen(ctx: RefContext) | HexRefDigits(ctx: RefContext)
    | LtOpen | LtExcl | TagName | TagSpace | TagSlash(withAtts: bool)
    | AttName | AttNameSpace | AttEq | AttValue(open: ByteType) | AttValueEnd | AttSpace
    | PercentOpen | PercentName | PoundOpen | PoundNameRest
    | LitBody(open: ByteType) | LitEnd
    | PrologName(nameTok: Token)

  datatype Action =
    | More(verdict: Verdict)
    | Go(n: nat, q: State)
    | Accept(tok: Token, n: nat)
    | Reject(n: nat)

  /** How the byte in front is taken by the CHECK_NAME_CASES, CHECK_NMSTRT_CASES and INVALID_CASES macros. */
  datatype CharCase = NotListed | Take(n: nat) | Cut | Bad

  predicate Space(t: ByteType) { t == S || t == CR || t == LF }

  function LeadLength(t: ByteType): nat
  {
    match t case LEAD2 => 2 case LEAD3 => 3 case LEAD4 => 4 case _ => 0
  }

  function LeadCase(ok: string -> bool, n: nat, w: string): (c: CharCase)
    ensures c.Take? ==> c.n == n <= |w|
  {
    if |w| < n then Cut else if ok(w[..n]) then Take(n) else Bad
  }

  function NameCase(enc: Encoding, w: string): (c: CharCase)
    requires w != ""
    ensures c.Take? ==> 1 <= c.n <= |w|
  {
    var t := enc.byteType(w[0]);
    match t
    case NONASCII => Bad
    case NMSTRT | HEX | DIGIT | NAME | MINUS => Take(1)
    case LEAD2 | LEAD3 | LEAD4 => LeadCase(enc.isName, LeadLength(t), w)
    case _ => NotListed
  }

  function NmstrtCase(enc: Encoding, w: string): (c: CharCase)
    requires w != ""
    ensures c.Take? ==> 1 <= c.n <= |w|
  {
    var t := enc.byteType(w[0]);
    match t
    case NONASCII => Bad
    case NMSTRT | HEX => Take(1)
    case LEAD2 | LEAD3 | LEAD4 => LeadCase(enc.isNmstrt, LeadLength(t), w)
    case _ => NotListed
  }

  function InvalidCase(enc: Encoding, w: string): (c: CharCase)
    requires w != ""
    ensures c.Take? ==> 1 <= c.n <= |w|
  {
    var t := enc.byteType(w[0]);
    match t
    case LEAD2 | LEAD3 | LEAD4 => LeadCase(x => !enc.isInvalid(x), LeadLength(t), w)
    case NONXML | MALFORM | TRAIL => Bad
    case _ => NotListed
  }

  function ByCase(c: CharCase, q: State, otherwise: Action): (a: Action)
  {
    match c
    case Take(n) => Go(n, q)
    case Cut => More(PartialChar)
    case Bad => Reject(0)
    case NotListed => otherwise
  }

  /** The PI target check: "xml" is the XML declaration, any other spelling of it is refused. */
  datatype PiTargetVerdict = Refused | Target(tok: Token)

  function CheckPiTarget(target: string): PiTargetVerdict
  {
    if |target| == 3 && target[0] in "xX" && target[1] in "mM" && target[2] in "lL" then
      if target == "xml" then Target(XmlDecl) else Refused
    else
      Target(Pi)
  }

  function StepComment(enc: Encoding, w: string): Action
    requires w != ""
  {
    ByCase(InvalidCase(enc, w), CommentBody,
           if enc.byteType(w[0]) == MINUS then Go(1, CommentMinus) else Go(1, CommentBody))
  }

  function StepPiBody(enc: Encoding, piTok: Token, w: string): Action
    requires w != ""
  {
    ByCase(InvalidCase(enc, w), PiBody(piTok),
           if enc.byteType(w[0]) == QUEST then Go(1, PiBodyQuest(piTok)) else Go(1, PiBody(piTok)))
  }

  function StepPiOpen(enc: Encoding, w: string): Action
    requires w != ""
  {
    var c := NmstrtCase(enc, w);
    if c.Take? then Go(c.n, PiTarget(w[..c.n])) else ByCase(c, PiOpen, Reject(0))
  }

  function StepPiTarget(enc: Encoding, target: string, w: string): Action
    requires w != ""
  {
    var c := NameCase(enc, w);
    if c.Take? then Go(c.n, PiTarget(target + w[..c.n]))
    else
      var t := enc.byteType(w[0]);
      ByCase(c, PiOpen,
             if Space(t) || t == QUEST then
               match CheckPiTarget(target) {
                 case Refused => Reject(0)
                 case Target(tok) => Go(1, if t == QUEST then PiTargetQuest(tok) else PiBody(tok))
               }
             else Reject(0))
  }

  /** The literal "CDATA[" after "<![": the first differing byte is the bad one. */
  function StepCdataOpen(w: string): Action
    requires w != ""
  {
    if |w| < 6 then More(Partial)
    else if w[0] != 'C' then Reject(0)
    else if w[1] != 'D' then Reject(1)
    else if w[2] != 'A' then Reject(2)
    else if w[3] != 'T' then Reject(3)
    else if w[4] != 'A' then Reject(4)
    else if w[5] != '[' then Reject(5)
    else Accept(CdataSectOpen, 6)
  }

  function StepDeclName(enc: Encoding, w: string): Action
    requires w != ""
  {
    var t := enc.byteType(w[0]);
    if t == PERCNT then
      if |w| == 1 then More(Partial)
      else if Space(enc.byteType(w[1])) || enc.byteType(w[1]) == PERCNT then Reject(0)
      else Accept(DeclOpen, 0)
    else if Space(t) then Accept(DeclOpen, 0)
    else if t == NMSTRT || t == HEX then Go(1, DeclName)
    else Reject(0)
  }

  /** A reference is over: a token in content, back into the value inside an attribute. */
  function EndOfRef(tok: Token, ctx: RefContext): Action
  {
    match ctx case InContent => Accept(tok, 1) case InValue(open) => Go(1, AttValue(open))
  }

  predicate RefPart(q: State) { q.RefOpen? || q.RefName? || q.CharRefOpen? || q.CharRefDec? || q.HexRefOpen? || q.HexRefDigits? }

  predicate NamePart(q: State) { q.LtOpen? || q.LtExcl? || q.TagName? || q.TagSpace? || q.TagSlash? || q.EndTagOpen? || q.EndTagName? || q.EndTagSpace? }

  predicate AttPart(q: State) { q.AttName? || q.AttNameSpace? || q.AttEq? || q.AttValue? || q.AttValueEnd? || q.AttSpace? }

  predicate PrologPart(q: State)
  {
    || q.DeclStart? || q.DeclName? || q.PercentOpen? || q.PercentName? || q.PoundOpen? || q.PoundNameRest?
    || q.LitBody? || q.LitEnd? || q.PrologName?
  }

  function StepRef(enc: Encoding, q: State, w: string): Action
    requires w != "" && RefPart(q)
  {
    var t := enc.byteType(w[0]);
    match q
    case RefOpen(ctx) => ByCase(NmstrtCase(enc, w), RefName(ctx), if t == NUM then Go(1, CharRefOpen(ctx)) else Reject(0))
    case RefName(ctx) => ByCase(NameCase(enc, w), RefName(ctx), if t == SEMI then EndOfRef(EntityRef, ctx) else Reject(0))
    case CharRefOpen(ctx) =>
      if w[0] == 'x' then Go(1, HexRefOpen(ctx)) else if t == DIGIT then Go(1, CharRefDec(ctx)) else Reject(0)
    case CharRefDec(ctx) =>
      if t == DIGIT then Go(1, CharRefDec(ctx)) else if t == SEMI then EndOfRef(CharRef, ctx) else Reject(0)
    case HexRefOpen(ctx) => if t == DIGIT || t == HEX then Go(1, HexRefDigits(ctx)) else Reject(0)
    case HexRefDigits(ctx) =>
      if t == DIGIT || t == HEX then Go(1, HexRefDigits(ctx)) else if t == SEMI then EndOfRef(CharRef, ctx) else Reject(0)
  }

  function StepTag(enc: Encoding, q: State, w: string): Action
    requires w != "" && NamePart(q)
  {
    var t := enc.byteType(w[0]);
    match q
    case LtOpen => ByCase(NmstrtCase(enc, w), TagName,
                          if t == EXCL then Go(1, LtExcl) else if t == QUEST then Go(1, PiOpen)
                          else if t == SOL then Go(1, EndTagOpen) else Reject(0))
    case LtExcl => if t == MINUS then Go(1, CommentOpen) else if t == LSQB then Go(1, CdataOpen) else Reject(0)
    case TagName => ByCase(NameCase(enc, w), TagName,
                           if Space(t) then Go(1, TagSpace) else if t == GT then Accept(StartTagNoAtts, 1)
                           else if t == SOL then Go(1, TagSlash(false)) else Reject(0))
    case TagSpace => ByCase(NmstrtCase(enc, w), AttName,
                            if Space(t) then Go(1, TagSpace) else if t == GT then Accept(StartTagNoAtts, 1)
                            else if t == SOL then Go(1, TagSlash(false)) else Reject(0))
    case TagSlash(withAtts) =>
      if w[0] == '>' then Accept(if withAtts then EmptyElementWithAtts else EmptyElementNoAtts, 1) else Reject(0)
    case EndTagOpen => ByCase(NmstrtCase(enc, w), EndTagName, Reject(0))
    case EndTagName => ByCase(NameCase(enc, w), EndTagName,
                              if Space(t) then Go(1, EndTagSpace) else if t == GT then Accept(EndTag, 1) else Reject(0))
    case EndTagSpace => if Space(t) then Go(1, EndTagSpace) else if t == GT then Accept(EndTag, 1) else Reject(0)
  }

  function StepAtt(enc: Encoding, q: State, w: string): Action
    requires w != "" && AttPart(q)
  {
    var t := enc.byteType(w[0]);
    match q
    case AttName => ByCase(NameCase(enc, w), AttName,
                           if Space(t) then Go(1, AttNameSpace) else if t == EQUALS then Go(1, AttEq) else Reject(0))
    case AttNameSpace => if t == EQUALS then Go(1, AttEq) else if Space(t) then Go(1, AttNameSpace) else Reject(0)
    case AttEq =>
      if t == QUOT || t == APOS then Go(1, AttValue(t)) else if Space(t) then Go(1, AttEq) else Reject(0)
    case AttValue(open) =>
      if t == open then Go(1, AttValueEnd)
      else ByCase(InvalidCase(enc, w), AttValue(open),
                  if t == AMP then Go(1, RefOpen(InValue(open))) else if t == LT then Reject(0) else Go(1, AttValue(open)))
    case AttValueEnd =>
      if Space(t) then Go(1, AttSpace) else if t == SOL then Go(1, TagSlash(true))
      else if t == GT then Accept(StartTagWithAtts, 1) else Reject(0)
    case AttSpace => ByCase(NmstrtCase(enc, w), AttName,
                            if Space(t) then Go(1, AttSpace) else if t == GT then Accept(StartTagWithAtts, 1)
                            else if t == SOL then Go(1, TagSlash(true)) else Reject(0))
  }

  function StepDeclStart(enc: Encoding, w: string): Action
    requires w != ""
  {
    var t := enc.byteType(w[0]);
    if t == MINUS then Go(1, CommentOpen)
    else if t == LSQB then Accept(CondSectOpen, 1)
    else if t == NMSTRT || t == HEX then Go(1, DeclName)
    else Reject(0)
  }

  function StepPercent(enc: Encoding, q: State, w: string): Action
    requires w != "" && (q.PercentOpen? || q.PercentName?)
  {
    var t := enc.byteType(w[0]);
    match q
    case PercentOpen => ByCase(NmstrtCase(enc, w), PercentName, if Space(t) || t == PERCNT then Accept(Percent, 0) else Reject(0))
    case PercentName => ByCase(NameCase(enc, w), PercentName, if t == SEMI then Accept(ParamEntityRef, 1) else Reject(0))
  }

  function StepPound(enc: Encoding, q: State, w: string): Action
    requires w != "" && (q.PoundOpen? || q.PoundNameRest?)
  {
    var t := enc.byteType(w[0]);
    match q
    case PoundOpen => ByCase(NmstrtCase(enc, w), PoundNameRest, Reject(0))
    case PoundNameRest => ByCase(NameCase(enc, w), PoundNameRest,
                                 if Space(t) || t == RPAR || t == GT || t == PERCNT || t == VERBAR then Accept(PoundName, 0)
                                 else Reject(0))
  }

  function StepLit(enc: Encoding, q: State, w: string): Action
    requires w != "" && (q.LitBody? || q.LitEnd?)
  {
    var t := enc.byteType(w[0]);
    match q
    case LitBody(open) =>
      ByCase(InvalidCase(enc, w), LitBody(open), Go(1, if t == open && (t == QUOT || t == APOS) then LitEnd else LitBody(open)))
    case LitEnd => if Space(t) || t == GT || t == PERCNT || t == LSQB then Accept(Literal, 0) else Reject(0)
  }

  function StepPrologName(enc: Encoding, tok: Token, w: string): Action
    requires w != ""
  {
    var t := enc.byteType(w[0]);
    ByCase(NameCase(enc, w), PrologName(tok),
           if Space(t) || t == GT || t == RPAR || t == COMMA || t == VERBAR || t == LSQB || t == PERCNT then Accept(tok, 0)
           else if tok == Nmtoken then Reject(0)
           else if t == PLUS then Accept(NamePlus, 1)
           else if t == AST then Accept(NameAsterisk, 1)
           else if t == QUEST then Accept(NameQuestion, 1)
           else Reject(0))
  }

  function StepProlog(enc: Encoding, q: State, w: string): Action
    requires w != "" && PrologPart(q)
  {
    match q
    case DeclStart => StepDeclStart(enc, w)
    case DeclName => StepDeclName(enc, w)
    case PercentOpen | PercentName => StepPercent(enc, q, w)
    case PoundOpen | PoundNameRest => StepPound(enc, q, w)
    case LitBody(_) | LitEnd => StepLit(enc, q, w)
    case PrologName(tok) => StepPrologName(enc, tok, w)
  }

  predicate OtherPart(q: State) { !RefPart(q) && !NamePart(q) && !AttPart(q) && !PrologPart(q) }

  function StepOther(enc: Encoding, q: State, w: string): Action
    requires w != "" && OtherPart(q)
  {
    match q
    case CommentOpen => if w[0] == '-' then Go(1, CommentBody) else Reject(0)
    case CommentBody => StepComment(enc, w)
    case CommentMinus => if w[0] == '-' then Go(1, CommentMinusMinus) else StepComment(enc, w)
    case CommentMinusMinus => if w[0] == '>' then Accept(Comment, 1) else Reject(0)
    case PiOpen => StepPiOpen(enc, w)
    case PiTarget(target) => StepPiTarget(enc, target, w)
    case PiTargetQuest(tok) => if w[0] == '>' then Accept(tok, 1) else Reject(0)
    case PiBody(tok) => StepPiBody(enc, tok, w)
    case PiBodyQuest(tok) => if w[0] == '>' then Accept(tok, 1) else StepPiBody(enc, tok, w)
    case CdataOpen => StepCdataOpen(w)
  }

  /** One move of the automaton on the unread bytes `w`. */
  function Step(enc: Encoding, q: State, w: string): (a: Action)
    requires w != ""
    ensures a.More? ==> a.verdict == Partial || a.verdict == PartialChar
    ensures a.Go? ==> 1 <= a.n <= |w|
    ensures a.Accept? ==> a.n <= |w|
    ensures a.Reject? ==> a.n < |w|
  {
    hide StepRef; hide StepTag; hide StepAtt; hide StepProlog; hide StepOther;
    if RefPart(q) then StepRef(enc, q, w)
    else if NamePart(q) then StepTag(enc, q, w)
    else if AttPart(q) then StepAtt(enc, q, w)
    else if PrologPart(q) then StepProlog(enc, q, w)
    else StepOther(enc, q, w)
  }

  /** The verdict of the automaton started in `q` at position `p`. */
  function Scan(enc: Encoding, q: State, s: string, p: nat): (v: Verdict)
    requires p <= |s|
    ensures v.Tok? ==> p <= v.next <= |s|
    ensures v.Invalid? ==> p <= v.at < |s|
    ensures v.Final() || v == Partial || v == PartialChar
    decreases |s| - p
  {
    if p == |s| then Partial
    else
      match Step(enc, q, s[p..])
      case More(v) => v
      case Go(n, q') => Scan(enc, q', s, p + n)
      case Accept(tok, n) => Tok(tok, p + n)
      case Reject(n) => Invalid(p + n)
  }

  /** Where an action leads. */
  function Follow(enc: Encoding, a: Action, s: string, p: nat): Verdict
    requires p < |s| && (a.Go? ==> 1 <= a.n <= |s| - p)
  {
    match a case More(v) => v case Go(n, q') => Scan(enc, q', s, p + n) case Accept(tok, n) => Tok(tok, p + n) case Reject(n) => Invalid(p + n)
  }

  lemma {:induction false} ScanUnfold(enc: Encoding, q: State, s: string, p: nat)
    requires p <= |s|
    ensures Scan(enc, q, s, p) == if p == |s| then Partial else Follow(enc, Step(enc, q, s[p..]), s, p)
  {
    hide Step;
  }

  lemma {:induction false} TagUnfold(enc: Encoding, q: State, s: string, p: nat)
    requires p <= |s|
    requires NamePart(q)
    ensures Scan(enc, q, s, p) == if p == |s| then Partial else Follow(enc, StepTag(enc, q, s[p..]), s, p)
  {
    hide Scan; hide Follow; hide Step; hide StepTag;
    ScanUnfold(enc, q, s, p);
    if p < |s| { StepBy(enc, q, s[p..]); }
  }

  lemma {:induction false} AttUnfold(enc: Encoding, q: State, s: string, p: nat)
    requires p <= |s|
    requires AttPart(q)
    ensures Scan(enc, q, s, p) == if p == |s| then Partial else Follow(enc, StepAtt(enc, q, s[p..]), s, p)
  {
    hide Scan; hide Follow; hide Step; hide StepAtt;
    ScanUnfold(enc, q, s, p);
    if p < |s| { StepBy(enc, q, s[p..]); }
  }

  lemma {:induction false} RefUnfold(enc: Encoding, q: State, s: string, p: nat)
    requires p <= |s|
    requires RefPart(q)
    ensures Scan(enc, q, s, p) == if p == |s| then Partial else Follow(enc, StepRef(enc, q, s[p..]), s, p)
  {
    hide Scan; hide Follow; hide Step; hide StepRef;
    ScanUnfold(enc, q, s, p);
    if p < |s| { StepBy(enc, q, s[p..]); }
  }

  lemma {:induction false} OtherUnfold(enc: Encoding, q: State, s: string, p: nat)
    requires p <= |s| && OtherPart(q)
    ensures Scan(enc, q, s, p) == if p == |s| then Partial else Follow(enc, StepOther(enc, q, s[p..]), s, p)
  {
    hide Scan; hide Follow; hide Step; hide StepOther;
    ScanUnfold(enc, q, s, p);
    if p < |s| { StepBy(enc, q, s[p..]); }
  }

  lemma {:induction false} PrologUnfold(enc: Encoding, q: State, s: string, p: nat)
    requires p <= |s|
    requires PrologPart(q)
    ensures Scan(enc, q, s, p) == if p == |s| then Partial else Follow(enc, StepProlog(enc, q, s[p..]), s, p)
  {
    hide Scan; hide Follow; hide Step; hide StepProlog;
    ScanUnfold(enc, q, s, p);
    if p < |s| { StepBy(enc, q, s[p..]); }
  }

  // ---- Prefix stability ----

  lemma {:induction false} CharCasesStable(enc: Encoding, w: string, t: string)
    requires w != ""
    ensures !NameCase(enc, w).Cut? ==> NameCase(enc, w + t) == NameCase(enc, w)
    ensures !NmstrtCase(enc, w).Cut? ==> NmstrtCase(enc, w + t) == NmstrtCase(enc, w)
    ensures !InvalidCase(enc, w).Cut? ==> InvalidCase(enc, w + t) == InvalidCase(enc, w)
  {
    assert (w + t)[0] == w[0];
    var n := LeadLength(enc.byteType(w[0]));
    if n != 0 && n <= |w| {
      assert (w + t)[..n] == w[..n];
    }
  }

  /** Which of the tables a state is looked up in. */
  lemma {:induction false} StepBy(enc: Encoding, q: State, w: string)
    requires w != ""
    ensures RefPart(q) ==> Step(enc, q, w) == StepRef(enc, q, w)
    ensures NamePart(q) ==> Step(enc, q, w) == StepTag(enc, q, w)
    ensures AttPart(q) ==> Step(enc, q, w) == StepAtt(enc, q, w)
    ensures PrologPart(q) ==> Step(enc, q, w) == StepProlog(enc, q, w)
    ensures OtherPart(q) ==> Step(enc, q, w) == StepOther(enc, q, w)
  {
    hide StepRef; hide StepTag; hide StepAtt; hide StepProlog; hide StepOther;
  }

  lemma {:induction false} StepRefStable(enc: Encoding, q: State, w: string, t: string)
    requires w != "" && RefPart(q) && !StepRef(enc, q, w).More?
    ensures StepRef(enc, q, w + t) == StepRef(enc, q, w)
  {
    hide NameCase; hide NmstrtCase;
    CharCasesStable(enc, w, t);
    assert (w + t)[0] == w[0];
  }

  lemma {:induction false} StepTagStable(enc: Encoding, q: State, w: string, t: string)
    requires w != "" && NamePart(q) && !StepTag(enc, q, w).More?
    ensures StepTag(enc, q, w + t) == StepTag(enc, q, w)
  {
    hide NameCase; hide NmstrtCase;
    CharCasesStable(enc, w, t);
    assert (w + t)[0] == w[0];
  }

  lemma {:induction false} StepAttStable(enc: Encoding, q: State, w: string, t: string)
    requires w != "" && AttPart(q) && !StepAtt(enc, q, w).More?
    ensures StepAtt(enc, q, w + t) == StepAtt(enc, q, w)
  {
    hide NameCase; hide NmstrtCase; hide InvalidCase;
    CharCasesStable(enc, w, t);
    assert (w + t)[0] == w[0];
  }

  lemma {:induction false} StepPrologStable(enc: Encoding, q: State, w: string, t: string)
    requires w != "" && PrologPart(q) && !StepProlog(enc, q, w).More?
    ensures StepProlog(enc, q, w + t) == StepProlog(enc, q, w)
  {
    hide NameCase; hide NmstrtCase; hide InvalidCase;
    CharCasesStable(enc, w, t);
    assert (w + t)[0] == w[0];
    if q.DeclName? && |w| > 1 { assert (w + t)[1] == w[1]; }
  }

  lemma {:induction false} StepOtherStable(enc: Encoding, q: State, w: string, t: string)
    requires w != "" && OtherPart(q) && !StepOther(enc, q, w).More?
    ensures StepOther(enc, q, w + t) == StepOther(enc, q, w)
  {
    hide NameCase; hide NmstrtCase; hide InvalidCase; hide CheckPiTarget;
    CharCasesStable(enc, w, t);
    assert (w + t)[0] == w[0];
    if q.PiTarget? || q.PiOpen? {
      var c := if q.PiOpen? then NmstrtCase(enc, w) else NameCase(enc, w);
      if c.Take? { assert (w + t)[..c.n] == w[..c.n]; }
    }
  }

  lemma {:induction false} StepStable(enc: Encoding, q: State, w: string, t: string)
    requires w != "" && !Step(enc, q, w).More?
    ensures Step(enc, q, w + t) == Step(enc, q, w)
  {
    hide Step; hide RefPart; hide NamePart; hide AttPart; hide PrologPart;
    hide StepRef; hide StepTag; hide StepAtt; hide StepProlog; hide StepOther;
    StepBy(enc, q, w);
    StepBy(enc, q, w + t);
    if RefPart(q) { StepRefStable(enc, q, w, t); }
    else if NamePart(q) { StepTagStable(enc, q, w, t); }
    else if AttPart(q) { StepAttStable(enc, q, w, t); }
    else if PrologPart(q) { StepPrologStable(enc, q, w, t); }
    else { StepOtherStable(enc, q, w, t); }
  }

  lemma {:induction false} StepStableAt(enc: Encoding, q: State, s: string, t: string, p: nat)
    requires p < |s| && !Step(enc, q, s[p..]).More?
    ensures Step(enc, q, (s + t)[p..]) == Step(enc, q, s[p..])
  {
    hide Step;
    assert (s + t)[p..] == s[p..] + t;
    StepStable(enc, q, s[p..], t);
  }

  /** A token or an invalid verdict does not change, nor do its positions, when more bytes arrive. */
  lemma {:induction false} ScanStable(enc: Encoding, q: State, s: string, t: string, p: nat)
    requires p <= |s| && Scan(enc, q, s, p).Final()
    ensures Scan(enc, q, s + t, p) == Scan(enc, q, s, p)
    decreases |s| - p
  {
    hide Step; hide Scan;
    ScanUnfold(enc, q, s, p);
    ScanUnfold(enc, q, s + t, p);
    StepStableAt(enc, q, s, t, p);
    var a := Step(enc, q, s[p..]);
    if a.Go? {
      ScanStable(enc, a.q, s, t, p + a.n);
    }
  }
}
