/**
 The tokenizer functions of libjabber/xmltok_impl_c.h in their own form: loops
 over `ptr`, nested and with jumps.  Each is proved to return the verdict of
 the automaton of XmlScan, so that what is proved of the automaton (a token or
 an invalid verdict is final, getAtts finds what the scanner passed) holds of
 the code.
 */
module XmlTokImpl {
  import opened XmlScan
  import opened XmlTok
  import opened XmlAtts
  import opened XmlValue

  lemma {:induction false} CommentUnfold(enc: Encoding, q: State, s: string, p: nat)
    requires p <= |s| && (q.CommentBody? || q.CommentMinus?)
    ensures Scan(enc, q, s, p) == if p == |s| then Partial
                                  else Follow(enc, if q.CommentMinus? && s[p] == '-' then Go(1, CommentMinusMinus) else StepComment(enc, s[p..]), s, p)
  {
    hide Scan; hide Follow; hide StepComment;
    OtherUnfold(enc, q, s, p);
  }

  lemma {:induction false} CommentEndsUnfold(enc: Encoding, q: State, s: string, p: nat)
    requires p <= |s| && (q.CommentOpen? || q.CommentMinusMinus?)
    ensures Scan(enc, q, s, p) == if p == |s| then Partial
                                  else if q.CommentOpen? then (if s[p] == '-' then Scan(enc, CommentBody, s, p + 1) else Invalid(p))
                                  else if s[p] == '>' then Tok(Comment, p + 1) else Invalid(p)
  {
    hide Scan; hide StepComment;
    OtherUnfold(enc, q, s, p);
  }

  /** scanComment: `start` is behind "<!-". */
  method ScanComment(enc: Encoding, s: string, start: nat) returns (v: Verdict)
    requires start <= |s|
    ensures v == Scan(enc, CommentOpen, s, start)
  {
    hide Scan; hide Step; hide StepOther; hide InvalidCase;
    var ptr, end := start, |s|;
    CommentEndsUnfold(enc, CommentOpen, s, ptr);
    if ptr != end {
      if s[ptr] != '-' { return Invalid(ptr); }
      ptr := ptr + 1;
      while ptr != end
        invariant start <= ptr <= end
        invariant Scan(enc, CommentOpen, s, start) == Scan(enc, CommentBody, s, ptr)
        decreases end - ptr
      {
        CommentUnfold(enc, CommentBody, s, ptr);
        match InvalidCase(enc, s[ptr..])
        case Cut => return PartialChar;
        case Bad => return Invalid(ptr);
        case Take(n) => ptr := ptr + n;
        case NotListed =>
          if enc.byteType(s[ptr]) == MINUS {
            ptr := ptr + 1;
            CommentUnfold(enc, CommentMinus, s, ptr);
            if ptr == end { return Partial; }
            if s[ptr] == '-' {
              ptr := ptr + 1;
              CommentEndsUnfold(enc, CommentMinusMinus, s, ptr);
              if ptr == end { return Partial; }
              if s[ptr] != '>' { return Invalid(ptr); }
              return Tok(Comment, ptr + 1);
            }
            CommentUnfold(enc, CommentBody, s, ptr);
          } else {
            ptr := ptr + 1;
          }
      }
      CommentUnfold(enc, CommentBody, s, ptr);
    }
    return Partial;
  }

  lemma {:induction false} DeclUnfold(enc: Encoding, q: State, s: string, p: nat)
    requires p <= |s| && (q.DeclStart? || q.DeclName?)
    ensures Scan(enc, q, s, p) == if p == |s| then Partial
                                  else Follow(enc, if q.DeclStart? then StepDeclStart(enc, s[p..]) else StepDeclName(enc, s[p..]), s, p)
  {
    hide Scan; hide Follow; hide StepDeclStart; hide StepDeclName;
    PrologUnfold(enc, q, s, p);
  }

  lemma {:induction false} PoundUnfold(enc: Encoding, q: State, s: string, p: nat)
    requires p <= |s| && (q.PoundOpen? || q.PoundNameRest?)
    ensures Scan(enc, q, s, p) == if p == |s| then Partial else Follow(enc, StepPound(enc, q, s[p..]), s, p)
  {
    hide Scan; hide Follow; hide StepPound;
    PrologUnfold(enc, q, s, p);
  }

  lemma {:induction false} PercentUnfold(enc: Encoding, q: State, s: string, p: nat)
    requires p <= |s| && (q.PercentOpen? || q.PercentName?)
    ensures Scan(enc, q, s, p) == if p == |s| then Partial else Follow(enc, StepPercent(enc, q, s[p..]), s, p)
  {
    hide Scan; hide Follow; hide StepPercent;
    PrologUnfold(enc, q, s, p);
  }

  /** The switch on a character that may be part of a name: where it leads, or what the other branches give. */
  function CaseAt(enc: Encoding, c: CharCase, q: State, s: string, p: nat, otherwise: Verdict): Verdict
    requires p < |s| && (c.Take? ==> c.n <= |s| - p)
  {
    match c case Take(n) => Scan(enc, q, s, p + n) case Cut => PartialChar case Bad => Invalid(p) case NotListed => otherwise
  }

  lemma {:induction false} CaseFollow(enc: Encoding, c: CharCase, q: State, s: string, p: nat, a: Action, otherwise: Verdict)
    requires p < |s| && (c.Take? ==> 1 <= c.n <= |s| - p) && (a.Go? ==> 1 <= a.n <= |s| - p)
    requires c == NotListed ==> Follow(enc, a, s, p) == otherwise
    ensures Follow(enc, ByCase(c, q, a), s, p) == CaseAt(enc, c, q, s, p, otherwise)
  {
    hide Scan;
  }

  lemma {:induction false} PercentOpens(enc: Encoding, s: string, p: nat)
    requires p < |s|
    ensures var t := enc.byteType(s[p]);
            Scan(enc, PercentOpen, s, p) == CaseAt(enc, NmstrtCase(enc, s[p..]), PercentName, s, p, if Space(t) || t == PERCNT then Tok(Percent, p) else Invalid(p))
  {
    hide Scan; hide NmstrtCase; hide CaseAt; hide ByCase; hide NameCase;
    PercentUnfold(enc, PercentOpen, s, p);
    var t := enc.byteType(s[p]);
    CaseFollow(enc, NmstrtCase(enc, s[p..]), PercentName, s, p, if Space(t) || t == PERCNT then Accept(Percent, 0) else Reject(0),
               if Space(t) || t == PERCNT then Tok(Percent, p) else Invalid(p));
  }

  lemma {:induction false} PercentNames(enc: Encoding, s: string, p: nat)
    requires p < |s|
    ensures var t := enc.byteType(s[p]);
            Scan(enc, PercentName, s, p) == CaseAt(enc, NameCase(enc, s[p..]), PercentName, s, p, if t == SEMI then Tok(ParamEntityRef, p + 1) else Invalid(p))
  {
    hide Scan; hide NmstrtCase; hide CaseAt; hide ByCase; hide NameCase;
    PercentUnfold(enc, PercentName, s, p);
    var t := enc.byteType(s[p]);
    CaseFollow(enc, NameCase(enc, s[p..]), PercentName, s, p, if t == SEMI then Accept(ParamEntityRef, 1) else Reject(0),
               if t == SEMI then Tok(ParamEntityRef, p + 1) else Invalid(p));
  }

  lemma {:induction false} PoundOpens(enc: Encoding, s: string, p: nat)
    requires p < |s|
    ensures Scan(enc, PoundOpen, s, p) == CaseAt(enc, NmstrtCase(enc, s[p..]), PoundNameRest, s, p, Invalid(p))
  {
    hide Scan; hide NmstrtCase; hide CaseAt; hide ByCase; hide NameCase;
    PoundUnfold(enc, PoundOpen, s, p);
    CaseFollow(enc, NmstrtCase(enc, s[p..]), PoundNameRest, s, p, Reject(0), Invalid(p));
  }

  lemma {:induction false} PoundNames(enc: Encoding, s: string, p: nat)
    requires p < |s|
    ensures var t := enc.byteType(s[p]); var end := Space(t) || t == RPAR || t == GT || t == PERCNT || t == VERBAR;
            Scan(enc, PoundNameRest, s, p) == CaseAt(enc, NameCase(enc, s[p..]), PoundNameRest, s, p, if end then Tok(PoundName, p) else Invalid(p))
  {
    hide Scan; hide NmstrtCase; hide CaseAt; hide ByCase; hide NameCase;
    PoundUnfold(enc, PoundNameRest, s, p);
    var t := enc.byteType(s[p]);
    var end := Space(t) || t == RPAR || t == GT || t == PERCNT || t == VERBAR;
    CaseFollow(enc, NameCase(enc, s[p..]), PoundNameRest, s, p, if end then Accept(PoundName, 0) else Reject(0),
               if end then Tok(PoundName, p) else Invalid(p));
  }

  lemma {:induction false} NothingScanned(enc: Encoding, q: State, s: string)
    ensures Scan(enc, q, s, |s|) == Partial
  {
    hide Step;
  }

  lemma {:induction false} DeclStarts(enc: Encoding, s: string, p: nat)
    requires p < |s|
    ensures var t := enc.byteType(s[p]);
            Scan(enc, DeclStart, s, p) == if t == MINUS then Scan(enc, CommentOpen, s, p + 1) else if t == LSQB then Tok(CondSectOpen, p + 1)
                                          else if t == NMSTRT || t == HEX then Scan(enc, DeclName, s, p + 1) else Invalid(p)
  {
    hide Scan;
    DeclUnfold(enc, DeclStart, s, p);
  }

  lemma {:induction false} DeclNames(enc: Encoding, s: string, p: nat)
    requires p < |s|
    ensures var t := enc.byteType(s[p]);
            Scan(enc, DeclName, s, p) ==
            if t == PERCNT then
              if p + 1 == |s| then Partial
              else if Space(enc.byteType(s[p + 1])) || enc.byteType(s[p + 1]) == PERCNT then Invalid(p) else Tok(DeclOpen, p)
            else if Space(t) then Tok(DeclOpen, p)
            else if t == NMSTRT || t == HEX then Scan(enc, DeclName, s, p + 1) else Invalid(p)
  {
    hide Scan;
    DeclUnfold(enc, DeclName, s, p);
  }

  /** scanDecl: `start` is behind "<!". */
  method ScanDecl(enc: Encoding, s: string, start: nat) returns (v: Verdict)
    requires start <= |s|
    ensures v == Scan(enc, DeclStart, s, start)
  {
    hide Scan; hide Space;
    var ptr, end := start, |s|;
    if ptr == end { NothingScanned(enc, DeclStart, s); return Partial; }
    DeclStarts(enc, s, ptr);
    match enc.byteType(s[ptr]) {
      case MINUS => v := ScanComment(enc, s, ptr + 1); return v;
      case LSQB => return Tok(CondSectOpen, ptr + 1);
      case NMSTRT | HEX => ptr := ptr + 1;
      case _ => return Invalid(ptr);
    }
    while ptr != end
      invariant start <= ptr <= end
      invariant Scan(enc, DeclStart, s, start) == Scan(enc, DeclName, s, ptr)
      decreases end - ptr
    {
      DeclNames(enc, s, ptr);
      var t := enc.byteType(s[ptr]);
      if t == PERCNT {
        if ptr + 1 == end { return Partial; }
        var t' := enc.byteType(s[ptr + 1]);
        if Space(t') || t' == PERCNT { return Invalid(ptr); }
        return Tok(DeclOpen, ptr);
      } else if Space(t) {
        return Tok(DeclOpen, ptr);
      } else if t == NMSTRT || t == HEX {
        ptr := ptr + 1;
      } else {
        return Invalid(ptr);
      }
    }
    NothingScanned(enc, DeclName, s);
    return Partial;
  }

  lemma {:induction false} PiUnfold(enc: Encoding, q: State, s: string, p: nat)
    requires p <= |s| && (q.PiBody? || q.PiBodyQuest?)
    ensures Scan(enc, q, s, p) == if p == |s| then Partial
                                  else Follow(enc, if q.PiBodyQuest? && s[p] == '>' then Accept(q.piTok, 1) else StepPiBody(enc, q.piTok, s[p..]), s, p)
  {
    hide Scan; hide Follow; hide StepPiBody;
    OtherUnfold(enc, q, s, p);
  }

  lemma {:induction false} PiBodies(enc: Encoding, tok: Token, s: string, p: nat)
    requires p < |s|
    ensures Scan(enc, PiBody(tok), s, p) ==
            CaseAt(enc, InvalidCase(enc, s[p..]), PiBody(tok), s, p, if enc.byteType(s[p]) == QUEST then Scan(enc, PiBodyQuest(tok), s, p + 1) else Scan(enc, PiBody(tok), s, p + 1))
    ensures Scan(enc, PiBodyQuest(tok), s, p) == if s[p] == '>' then Tok(tok, p + 1) else Scan(enc, PiBody(tok), s, p)
  {
    hide Scan; hide InvalidCase;
    PiUnfold(enc, PiBody(tok), s, p);
    PiUnfold(enc, PiBodyQuest(tok), s, p);
  }

  /** The inner loop of scanPi, behind the white space that follows the target. */
  method ScanPiBody(enc: Encoding, tok: Token, s: string, start: nat) returns (v: Verdict)
    requires start <= |s|
    ensures v == Scan(enc, PiBody(tok), s, start)
  {
    hide Scan; hide InvalidCase;
    var ptr, end := start, |s|;
    while ptr != end
      invariant start <= ptr <= end
      invariant Scan(enc, PiBody(tok), s, start) == Scan(enc, PiBody(tok), s, ptr)
      decreases end - ptr
    {
      PiBodies(enc, tok, s, ptr);
      match InvalidCase(enc, s[ptr..])
      case Cut => return PartialChar;
      case Bad => return Invalid(ptr);
      case Take(n) => ptr := ptr + n;
      case NotListed =>
        if enc.byteType(s[ptr]) == QUEST {
          ptr := ptr + 1;
          if ptr == end { NothingScanned(enc, PiBodyQuest(tok), s); return Partial; }
          PiBodies(enc, tok, s, ptr);
          if s[ptr] == '>' { return Tok(tok, ptr + 1); }
        } else {
          ptr := ptr + 1;
        }
    }
    NothingScanned(enc, PiBody(tok), s);
    return Partial;
  }

  /** scanPi: `start` is behind "<?". */
  method ScanPi(enc: Encoding, s: string, start: nat) returns (v: Verdict)
    requires start <= |s|
    ensures v == Scan(enc, PiOpen, s, start)
  {
    hide Scan; hide Step; hide InvalidCase; hide NameCase; hide NmstrtCase;
    ScanUnfold(enc, PiOpen, s, start);
    if start == |s| { return Partial; }
    StepOfPi(enc, "", s, start);
    match NmstrtCase(enc, s[start..])
    case Cut => return PartialChar;
    case Bad => return Invalid(start);
    case NotListed => return Invalid(start);
    case Take(n) =>
      assert s[start..][..n] == s[start..start + n];
      v := ScanPiTarget(enc, s, start, start + n);
  }

  lemma {:induction false} StepOfPi(enc: Encoding, target: string, s: string, p: nat)
    requires p < |s|
    ensures Step(enc, PiOpen, s[p..]) == StepPiOpen(enc, s[p..]) && Step(enc, PiTarget(target), s[p..]) == StepPiTarget(enc, target, s[p..])
  {
    hide Step; hide StepPiTarget; hide StepPiOpen;
    StepBy(enc, PiOpen, s[p..]);
    StepBy(enc, PiTarget(target), s[p..]);
  }

  lemma {:induction false} PiTargets(enc: Encoding, target: string, s: string, p: nat)
    requires p < |s|
    ensures var c, t := NameCase(enc, s[p..]), enc.byteType(s[p]);
            Scan(enc, PiTarget(target), s, p) ==
            match c
            case Cut => PartialChar
            case Bad => Invalid(p)
            case Take(n) => Scan(enc, PiTarget(target + s[p..][..n]), s, p + n)
            case NotListed =>
              if !Space(t) && t != QUEST then Invalid(p)
              else match CheckPiTarget(target)
                case Refused => Invalid(p)
                case Target(tok) => if Space(t) then Scan(enc, PiBody(tok), s, p + 1) else Scan(enc, PiTargetQuest(tok), s, p + 1)
  {
    hide Scan; hide Step; hide NameCase; hide CheckPiTarget; hide NmstrtCase;
    ScanUnfold(enc, PiTarget(target), s, p);
    StepOfPi(enc, target, s, p);
  }

  /** The main loop of scanPi; the target starts at `target`. */
  method ScanPiTarget(enc: Encoding, s: string, target: nat, start: nat) returns (v: Verdict)
    requires target <= start <= |s|
    ensures v == Scan(enc, PiTarget(s[target..start]), s, start)
  {
    hide Scan; hide NameCase; hide CheckPiTarget; hide Space;
    var ptr, end := start, |s|;
    while ptr != end
      invariant start <= ptr <= end
      invariant Scan(enc, PiTarget(s[target..start]), s, start) == Scan(enc, PiTarget(s[target..ptr]), s, ptr)
      decreases end - ptr
    {
      PiTargets(enc, s[target..ptr], s, ptr);
      match NameCase(enc, s[ptr..])
      case Cut => return PartialChar;
      case Bad => return Invalid(ptr);
      case Take(n) => assert s[target..ptr] + s[ptr..][..n] == s[target..ptr + n]; ptr := ptr + n;
      case NotListed =>
        var t := enc.byteType(s[ptr]);
        if !Space(t) && t != QUEST { return Invalid(ptr); }
        match CheckPiTarget(s[target..ptr])
        case Refused => return Invalid(ptr);
        case Target(tok) =>
          if Space(t) { v := ScanPiBody(enc, tok, s, ptr + 1); } else { v := ScanPiQuest(enc, tok, s, ptr + 1); }
          return v;
    }
    NothingScanned(enc, PiTarget(s[target..ptr]), s);
    return Partial;
  }

  /** The branch of scanPi for a "?" right behind the target. */
  method ScanPiQuest(enc: Encoding, tok: Token, s: string, ptr: nat) returns (v: Verdict)
    requires ptr <= |s|
    ensures v == Scan(enc, PiTargetQuest(tok), s, ptr)
  {
    hide Scan; hide Step; hide StepComment; hide StepPiBody; hide StepPiOpen; hide StepPiTarget; hide StepCdataOpen;
    OtherUnfold(enc, PiTargetQuest(tok), s, ptr);
    if ptr == |s| { return Partial; }
    if s[ptr] == '>' { return Tok(tok, ptr + 1); }
    return Invalid(ptr);
  }

  /** scanCdataSection: `start` is behind "<![". */
  method ScanCdataSection(enc: Encoding, s: string, start: nat) returns (v: Verdict)
    requires start <= |s|
    ensures v == Scan(enc, CdataOpen, s, start)
  {
    hide Scan; hide Step; hide StepComment; hide StepPiBody; hide StepPiOpen; hide StepPiTarget;
    OtherUnfold(enc, CdataOpen, s, start);
    if |s| - start < 6 { return Partial; }
    ghost var w := s[start..];
    for i := 0 to 6
      invariant forall j :: 0 <= j < i ==> s[start + j] == "CDATA["[j]
    {
      assert w[i] == s[start + i];
      if s[start + i] != "CDATA["[i] {
        assert forall j :: 0 <= j < i ==> w[j] == "CDATA["[j];
        return Invalid(start + i);
      }
    }
    assert forall j :: 0 <= j < 6 ==> w[j] == "CDATA["[j];
    return Tok(CdataSectOpen, start + 6);
  }

  lemma {:induction false} EndOpens(enc: Encoding, s: string, p: nat)
    requires p < |s|
    ensures Scan(enc, EndTagOpen, s, p) == CaseAt(enc, NmstrtCase(enc, s[p..]), EndTagName, s, p, Invalid(p))
  {
    hide Scan; hide NameCase; hide NmstrtCase;
    TagUnfold(enc, EndTagOpen, s, p);
  }

  lemma {:induction false} EndNames(enc: Encoding, s: string, p: nat)
    requires p < |s|
    ensures Scan(enc, EndTagName, s, p) == CaseAt(enc, NameCase(enc, s[p..]), EndTagName, s, p, AfterName(enc, s, p))
  {
    hide Scan; hide NameCase; hide NmstrtCase;
    TagUnfold(enc, EndTagName, s, p);
  }

  lemma {:induction false} EndSpaces(enc: Encoding, s: string, p: nat)
    requires p < |s|
    ensures Scan(enc, EndTagSpace, s, p) == AfterName(enc, s, p)
  {
    hide Scan; hide NameCase; hide NmstrtCase;
    TagUnfold(enc, EndTagSpace, s, p);
  }

  /** What may follow the name of an end tag. */
  function AfterName(enc: Encoding, s: string, p: nat): Verdict
    requires p < |s|
  {
    if enc.byteType(s[p]) == GT then Tok(EndTag, p + 1) else if Space(enc.byteType(s[p])) then Scan(enc, EndTagSpace, s, p + 1) else Invalid(p)
  }

  /** scanEndTag: `start` is behind "</". */
  method ScanEndTag(enc: Encoding, s: string, start: nat) returns (v: Verdict)
    requires start <= |s|
    ensures v == Scan(enc, EndTagOpen, s, start)
  {
    hide Scan; hide NameCase; hide NmstrtCase; hide Space;
    var ptr, end := start, |s|;
    if ptr == end { NothingScanned(enc, EndTagOpen, s); return Partial; }
    EndOpens(enc, s, ptr);
    match NmstrtCase(enc, s[ptr..]) {
      case Cut => return PartialChar;
      case Bad => return Invalid(ptr);
      case NotListed => return Invalid(ptr);
      case Take(n) => ptr := ptr + n;
    }
    while ptr != end
      invariant start <= ptr <= end
      invariant Scan(enc, EndTagOpen, s, start) == Scan(enc, EndTagName, s, ptr)
      decreases end - ptr
    {
      EndNames(enc, s, ptr);
      match NameCase(enc, s[ptr..])
      case Cut => return PartialChar;
      case Bad => return Invalid(ptr);
      case Take(n) => ptr := ptr + n;
      case NotListed =>
        var t := enc.byteType(s[ptr]);
        if t == GT { return Tok(EndTag, ptr + 1); }
        if !Space(t) { return Invalid(ptr); }
        ptr := ptr + 1;
        while ptr != end
          invariant start <= ptr <= end
          invariant Scan(enc, EndTagOpen, s, start) == Scan(enc, EndTagSpace, s, ptr)
          decreases end - ptr
        {
          EndSpaces(enc, s, ptr);
          var t' := enc.byteType(s[ptr]);
          if t' == GT { return Tok(EndTag, ptr + 1); }
          if !Space(t') { return Invalid(ptr); }
          ptr := ptr + 1;
        }
        NothingScanned(enc, EndTagSpace, s);
        return Partial;
    }
    NothingScanned(enc, EndTagName, s);
    return Partial;
  }

  lemma {:induction false} HexDigits(enc: Encoding, s: string, p: nat)
    requires p < |s|
    ensures var t := enc.byteType(s[p]); var more := if t == DIGIT || t == HEX then Scan(enc, HexRefDigits(InContent), s, p + 1) else Invalid(p);
            && Scan(enc, HexRefOpen(InContent), s, p) == more
            && Scan(enc, HexRefDigits(InContent), s, p) == if t == SEMI then Tok(CharRef, p + 1) else more
  {
    hide Scan; hide NmstrtCase; hide NameCase;
    RefUnfold(enc, HexRefOpen(InContent), s, p);
    RefUnfold(enc, HexRefDigits(InContent), s, p);
  }

  /** scanHexCharRef: `start` is behind "&#x". */
  method ScanHexCharRef(enc: Encoding, s: string, start: nat) returns (v: Verdict)
    requires start <= |s|
    ensures v == Scan(enc, HexRefOpen(InContent), s, start)
  {
    hide Scan;
    var ptr, end := start, |s|;
    NothingScanned(enc, HexRefOpen(InContent), s);
    NothingScanned(enc, HexRefDigits(InContent), s);
    if ptr != end {
      HexDigits(enc, s, ptr);
      if enc.byteType(s[ptr]) != DIGIT && enc.byteType(s[ptr]) != HEX { return Invalid(ptr); }
      ptr := ptr + 1;
      while ptr != end
        invariant start <= ptr <= end
        invariant Scan(enc, HexRefOpen(InContent), s, start) == Scan(enc, HexRefDigits(InContent), s, ptr)
        decreases end - ptr
      {
        HexDigits(enc, s, ptr);
        match enc.byteType(s[ptr])
        case DIGIT | HEX => ptr := ptr + 1;
        case SEMI => return Tok(CharRef, ptr + 1);
        case _ => return Invalid(ptr);
      }
    }
    return Partial;
  }

  /** scanCharRef: `start` is behind "&#". */
  method ScanCharRef(enc: Encoding, s: string, start: nat) returns (v: Verdict)
    requires start <= |s|
    ensures v == Scan(enc, CharRefOpen(InContent), s, start)
  {
    hide Scan; hide Step; hide InvalidCase; hide NameCase; hide NmstrtCase;
    var ptr, end := start, |s|;
    RefUnfold(enc, CharRefOpen(InContent), s, ptr);
    if ptr != end {
      if s[ptr] == 'x' {
        v := ScanHexCharRef(enc, s, ptr + 1);
        return v;
      }
      if enc.byteType(s[ptr]) != DIGIT { return Invalid(ptr); }
      ptr := ptr + 1;
      while ptr != end
        invariant start <= ptr <= end
        invariant Scan(enc, CharRefOpen(InContent), s, start) == Scan(enc, CharRefDec(InContent), s, ptr)
        decreases end - ptr
      {
        RefUnfold(enc, CharRefDec(InContent), s, ptr);
        match enc.byteType(s[ptr])
        case DIGIT => ptr := ptr + 1;
        case SEMI => return Tok(CharRef, ptr + 1);
        case _ => return Invalid(ptr);
      }
      RefUnfold(enc, CharRefDec(InContent), s, ptr);
    }
    return Partial;
  }

  /** scanRef: `start` is behind "&". */
  method ScanRef(enc: Encoding, s: string, start: nat) returns (v: Verdict)
    requires start <= |s|
    ensures v == Scan(enc, RefOpen(InContent), s, start)
  {
    hide Scan; hide Step; hide InvalidCase; hide NameCase; hide NmstrtCase;
    var ptr, end := start, |s|;
    RefUnfold(enc, RefOpen(InContent), s, ptr);
    if ptr == end { return Partial; }
    match NmstrtCase(enc, s[ptr..]) {
      case Cut => return PartialChar;
      case Bad => return Invalid(ptr);
      case Take(n) => ptr := ptr + n;
      case NotListed =>
        if enc.byteType(s[ptr]) != NUM { return Invalid(ptr); }
        v := ScanCharRef(enc, s, ptr + 1);
        return v;
    }
    while ptr != end
      invariant start <= ptr <= end
      invariant Scan(enc, RefOpen(InContent), s, start) == Scan(enc, RefName(InContent), s, ptr)
      decreases end - ptr
    {
      RefUnfold(enc, RefName(InContent), s, ptr);
      match NameCase(enc, s[ptr..])
      case Cut => return PartialChar;
      case Bad => return Invalid(ptr);
      case Take(n) => ptr := ptr + n;
      case NotListed =>
        if enc.byteType(s[ptr]) == SEMI { return Tok(EntityRef, ptr + 1); }
        return Invalid(ptr);
    }
    RefUnfold(enc, RefName(InContent), s, ptr);
    return Partial;
  }

  function InContext(q: State, ctx: RefContext): State
  {
    match q
    case RefOpen(_) => RefOpen(ctx)
    case RefName(_) => RefName(ctx)
    case CharRefOpen(_) => CharRefOpen(ctx)
    case CharRefDec(_) => CharRefDec(ctx)
    case HexRefOpen(_) => HexRefOpen(ctx)
    case HexRefDigits(_) => HexRefDigits(ctx)
    case _ => q
  }

  /** Inside a value, the end of the reference leads back into the value. */
  predicate StepsInValue(enc: Encoding, q: State, w: string, open: ByteType)
    requires w != "" && RefPart(q) && q == InContext(q, InContent)
  {
    var a := StepRef(enc, q, w);
    && StepRef(enc, InContext(q, InValue(open)), w) ==
         (if a.Go? then Go(a.n, InContext(a.q, InValue(open))) else if a.Accept? then Go(a.n, AttValue(open)) else a)
    && (a.Go? ==> 1 <= a.n <= |w| && RefPart(a.q) && a.q == InContext(a.q, InContent))
    && (a.Accept? ==> a.n == 1) && (a.More? ==> a.verdict.PartialChar?)
  }

  lemma {:induction false} StepRefInValue(enc: Encoding, q: State, w: string, open: ByteType)
    requires w != "" && RefPart(q) && q == InContext(q, InContent)
    ensures StepsInValue(enc, q, w, open)
  {
    hide NameCase; hide NmstrtCase;
    if q.RefOpen? || q.RefName? {
      StepNameRefInValue(enc, q, w, open);
    }
  }

  lemma {:induction false} StepNameRefInValue(enc: Encoding, q: State, w: string, open: ByteType)
    requires w != "" && q == InContext(q, InContent) && (q.RefOpen? || q.RefName?)
    ensures StepsInValue(enc, q, w, open)
  {
    hide NameCase; hide NmstrtCase;
  }

  /** Inside a value a reference is scanned as it is in content; then the value goes on. */
  lemma {:induction false} RefInValue(enc: Encoding, q: State, s: string, p: nat, open: ByteType)
    requires p <= |s| && RefPart(q) && q == InContext(q, InContent)
    ensures var v := Scan(enc, q, s, p);
            Scan(enc, InContext(q, InValue(open)), s, p) == if v.Tok? then Scan(enc, AttValue(open), s, v.next) else v
    decreases |s| - p
  {
    hide Scan; hide Step; hide StepRef;
    RefUnfold(enc, q, s, p);
    RefUnfold(enc, InContext(q, InValue(open)), s, p);
    if p < |s| {
      StepRefInValue(enc, q, s[p..], open);
      var a := StepRef(enc, q, s[p..]);
      if a.Go? { RefInValue(enc, a.q, s, p + a.n, open); }
    }
  }

  /** The end of an empty-element tag: `start` is behind "/". */
  method ScanSlash(enc: Encoding, s: string, start: nat, withAtts: bool) returns (v: Verdict)
    requires start <= |s|
    ensures v == Scan(enc, TagSlash(withAtts), s, start)
  {
    hide Scan; hide Step; hide InvalidCase; hide NameCase; hide NmstrtCase;
    TagUnfold(enc, TagSlash(withAtts), s, start);
    if start == |s| { return Partial; }
    if s[start] != '>' { return Invalid(start); }
    return Tok(if withAtts then EmptyElementWithAtts else EmptyElementNoAtts, start + 1);
  }

  /** The value loop of scanAtts: on success `ptr` is at the closing quote. */
  method ScanAttValue(enc: Encoding, s: string, open: ByteType, start: nat) returns (v: Verdict, ptr: nat)
    requires start <= |s|
    ensures v.Final() || v == Partial || v == PartialChar
    ensures v.Tok? ==> start <= ptr < |s| && Scan(enc, AttValue(open), s, start) == Scan(enc, AttValueEnd, s, ptr + 1)
    ensures !v.Tok? ==> v == Scan(enc, AttValue(open), s, start)
  {
    hide Scan; hide Step; hide InvalidCase; hide NameCase; hide NmstrtCase;
    ptr := start;
    while true
      invariant start <= ptr <= |s|
      invariant Scan(enc, AttValue(open), s, start) == Scan(enc, AttValue(open), s, ptr)
      decreases |s| - ptr
    {
      AttUnfold(enc, AttValue(open), s, ptr);
      if ptr == |s| { return Partial, ptr; }
      var t := enc.byteType(s[ptr]);
      if t == open { return Tok(DataChars, ptr), ptr; }
      match InvalidCase(enc, s[ptr..])
      case Cut => return PartialChar, ptr;
      case Bad => return Invalid(ptr), ptr;
      case Take(n) => ptr := ptr + n;
      case NotListed =>
        if t == AMP {
          var r := ScanRef(enc, s, ptr + 1);
          RefInValue(enc, RefOpen(InContent), s, ptr + 1, open);
          if !r.Tok? { return r, ptr; }
          ptr := r.next;
        } else if t == LT {
          return Invalid(ptr), ptr;
        } else {
          ptr := ptr + 1;
        }
    }
  }

  /** The loops of scanAtts over white space: up to "=", from there up to the opening quote, and behind a value up to the
      next name.  `go` says that `ptr` was reached; otherwise `v` is the verdict of the whole. */
  method SkipToEquals(enc: Encoding, s: string, start: nat) returns (go: bool, v: Verdict, ptr: nat)
    requires start < |s|
    ensures go ==> start < ptr < |s| && Scan(enc, AttNameSpace, s, start + 1) == Scan(enc, AttEq, s, ptr + 1)
    ensures !go ==> v == Scan(enc, AttNameSpace, s, start + 1)
  {
    hide Scan; hide Step; hide InvalidCase; hide NameCase; hide NmstrtCase;
    ptr := start;
    while true
      invariant start <= ptr < |s|
      invariant Scan(enc, AttNameSpace, s, start + 1) == Scan(enc, AttNameSpace, s, ptr + 1)
      decreases |s| - ptr
    {
      ptr := ptr + 1;
      AttUnfold(enc, AttNameSpace, s, ptr);
      if ptr == |s| { return false, Partial, ptr; }
      var t := enc.byteType(s[ptr]);
      if t == EQUALS { return true, Partial, ptr; }
      if !Space(t) { return false, Invalid(ptr), ptr; }
    }
  }

  method SkipToQuote(enc: Encoding, s: string, start: nat) returns (go: bool, v: Verdict, ptr: nat, open: ByteType)
    requires start < |s|
    ensures go ==> start < ptr < |s| && Scan(enc, AttEq, s, start + 1) == Scan(enc, AttValue(open), s, ptr + 1)
    ensures !go ==> v == Scan(enc, AttEq, s, start + 1)
  {
    hide Scan; hide Step; hide InvalidCase; hide NameCase; hide NmstrtCase;
    ptr := start;
    while true
      invariant start <= ptr < |s|
      invariant Scan(enc, AttEq, s, start + 1) == Scan(enc, AttEq, s, ptr + 1)
      decreases |s| - ptr
    {
      ptr := ptr + 1;
      AttUnfold(enc, AttEq, s, ptr);
      if ptr == |s| { return false, Partial, ptr, OTHER; }
      open := enc.byteType(s[ptr]);
      if open == QUOT || open == APOS { return true, Partial, ptr, open; }
      if !Space(open) { return false, Invalid(ptr), ptr, open; }
    }
  }

  lemma {:induction false} AttSpaces(enc: Encoding, s: string, p: nat)
    requires p < |s|
    ensures var t := enc.byteType(s[p]);
            Scan(enc, AttSpace, s, p) ==
            CaseAt(enc, NmstrtCase(enc, s[p..]), AttName, s, p,
                   if Space(t) then Scan(enc, AttSpace, s, p + 1) else if t == GT then Tok(StartTagWithAtts, p + 1)
                   else if t == SOL then Scan(enc, TagSlash(true), s, p + 1) else Invalid(p))
  {
    hide Scan; hide NmstrtCase; hide NameCase; hide InvalidCase;
    AttUnfold(enc, AttSpace, s, p);
  }

  method SkipToName(enc: Encoding, s: string, start: nat) returns (go: bool, v: Verdict, ptr: nat)
    requires start < |s|
    ensures go ==> start < ptr <= |s| && Scan(enc, AttSpace, s, start + 1) == Scan(enc, AttName, s, ptr)
    ensures !go ==> v == Scan(enc, AttSpace, s, start + 1)
  {
    hide Scan; hide NmstrtCase;
    ptr := start;
    while true
      invariant start <= ptr < |s|
      invariant Scan(enc, AttSpace, s, start + 1) == Scan(enc, AttSpace, s, ptr + 1)
      decreases |s| - ptr
    {
      ptr := ptr + 1;
      if ptr == |s| { NothingScanned(enc, AttSpace, s); return false, Partial, ptr; }
      AttSpaces(enc, s, ptr);
      match NmstrtCase(enc, s[ptr..])
      case Cut => return false, PartialChar, ptr;
      case Bad => return false, Invalid(ptr), ptr;
      case Take(n) => return true, Partial, ptr + n;
      case NotListed =>
        var t := enc.byteType(s[ptr]);
        if t == GT { return false, Tok(StartTagWithAtts, ptr + 1), ptr; }
        if t == SOL {
          v := ScanSlash(enc, s, ptr + 1, true);
          return false, v, ptr;
        }
        if !Space(t) { return false, Invalid(ptr), ptr; }
    }
  }

  /** The branch of scanAtts for "=" or white space behind a name: the value, up to the first character of the next name. */
  method ScanBehindName(enc: Encoding, s: string, start: nat) returns (go: bool, v: Verdict, ptr: nat)
    requires start < |s| && (Space(enc.byteType(s[start])) || enc.byteType(s[start]) == EQUALS)
    ensures var here := Scan(enc, if Space(enc.byteType(s[start])) then AttNameSpace else AttEq, s, start + 1);
            if go then start < ptr <= |s| && here == Scan(enc, AttName, s, ptr) else v == here
  {
    hide Scan; hide Step; hide NmstrtCase; hide NameCase; hide InvalidCase;
    go, v, ptr := true, Partial, start;
    if Space(enc.byteType(s[start])) {
      go, v, ptr := SkipToEquals(enc, s, ptr);
      if !go { return; }
    }
    var open;
    go, v, ptr, open := SkipToQuote(enc, s, ptr);
    if !go { return; }
    v, ptr := ScanAttValue(enc, s, open, ptr + 1);
    if !v.Tok? { return false, v, ptr; }
    go, v, ptr := ScanBehindValue(enc, s, ptr + 1);
  }

  /** What scanAtts does behind a closing quote. */
  method ScanBehindValue(enc: Encoding, s: string, start: nat) returns (go: bool, v: Verdict, ptr: nat)
    requires start <= |s|
    ensures if go then start < ptr <= |s| && Scan(enc, AttValueEnd, s, start) == Scan(enc, AttName, s, ptr)
            else v == Scan(enc, AttValueEnd, s, start)
  {
    hide Scan; hide Step; hide NmstrtCase; hide NameCase; hide InvalidCase;
    AttUnfold(enc, AttValueEnd, s, start);
    if start == |s| { return false, Partial, start; }
    var t := enc.byteType(s[start]);
    if t == SOL { v := ScanSlash(enc, s, start + 1, true); return false, v, start; }
    if t == GT { return false, Tok(StartTagWithAtts, start + 1), start; }
    if !Space(t) { return false, Invalid(start), start; }
    go, v, ptr := SkipToName(enc, s, start);
  }

  /** scanAtts: `start` is behind the first character of an attribute name. */
  method ScanAtts(enc: Encoding, s: string, start: nat) returns (v: Verdict)
    requires start <= |s|
    ensures v == Scan(enc, AttName, s, start)
  {
    hide Scan; hide Step; hide InvalidCase; hide NameCase; hide NmstrtCase;
    var ptr, end := start, |s|;
    while ptr != end
      invariant start <= ptr <= end
      invariant Scan(enc, AttName, s, start) == Scan(enc, AttName, s, ptr)
      decreases end - ptr
    {
      AttUnfold(enc, AttName, s, ptr);
      match NameCase(enc, s[ptr..])
      case Cut => return PartialChar;
      case Bad => return Invalid(ptr);
      case Take(n) => ptr := ptr + n;
      case NotListed =>
        if !Space(enc.byteType(s[ptr])) && enc.byteType(s[ptr]) != EQUALS { return Invalid(ptr); }
        var go;
        go, v, ptr := ScanBehindName(enc, s, ptr);
        if !go { return v; }
    }
    AttUnfold(enc, AttName, s, ptr);
    return Partial;
  }

  /** scanLt: `start` is behind "<". */
  method ScanLt(enc: Encoding, s: string, start: nat) returns (v: Verdict)
    requires start <= |s|
    ensures v == Scan(enc, LtOpen, s, start)
  {
    hide Scan; hide Step; hide InvalidCase; hide NameCase; hide NmstrtCase;
    TagUnfold(enc, LtOpen, s, start);
    if start == |s| { return Partial; }
    match NmstrtCase(enc, s[start..])
    case Cut => return PartialChar;
    case Bad => return Invalid(start);
    case Take(n) => v := ScanTagName(enc, s, start + n);
    case NotListed =>
      match enc.byteType(s[start])
      case EXCL => v := ScanLtExcl(enc, s, start + 1);
      case QUEST => v := ScanPi(enc, s, start + 1);
      case SOL => v := ScanEndTag(enc, s, start + 1);
      case _ => return Invalid(start);
  }

  /** The branch of scanLt for "<!". */
  method ScanLtExcl(enc: Encoding, s: string, ptr: nat) returns (v: Verdict)
    requires ptr <= |s|
    ensures v == Scan(enc, LtExcl, s, ptr)
  {
    hide Scan; hide Step; hide InvalidCase; hide NameCase; hide NmstrtCase;
    TagUnfold(enc, LtExcl, s, ptr);
    if ptr == |s| { return Partial; }
    match enc.byteType(s[ptr])
    case MINUS => v := ScanComment(enc, s, ptr + 1);
    case LSQB => v := ScanCdataSection(enc, s, ptr + 1);
    case _ => return Invalid(ptr);
  }

  /** The main loop of scanLt, over the element name. */
  method ScanTagName(enc: Encoding, s: string, start: nat) returns (v: Verdict)
    requires start <= |s|
    ensures v == Scan(enc, TagName, s, start)
  {
    hide Scan; hide NameCase; hide NmstrtCase;
    var ptr, end := start, |s|;
    while ptr != end
      invariant start <= ptr <= end
      invariant Scan(enc, TagName, s, start) == Scan(enc, TagName, s, ptr)
      decreases end - ptr
    {
      TagCases(enc, s, ptr);
      match NameCase(enc, s[ptr..])
      case Cut => return PartialChar;
      case Bad => return Invalid(ptr);
      case Take(n) => ptr := ptr + n;
      case NotListed =>
        var t := enc.byteType(s[ptr]);
        if t == GT { return Tok(StartTagNoAtts, ptr + 1); }
        if t == SOL { v := ScanSlash(enc, s, ptr + 1, false); return v; }
        if !Space(t) { return Invalid(ptr); }
        v := ScanTagSpace(enc, s, ptr + 1);
        return v;
    }
    NothingScanned(enc, TagName, s);
    return Partial;
  }

  /** The two loops of scanLt over the name of a start tag and the white space behind it. */
  lemma {:induction false} TagCases(enc: Encoding, s: string, p: nat)
    requires p < |s|
    ensures var t := enc.byteType(s[p]);
            var other := if Space(t) then Scan(enc, TagSpace, s, p + 1) else if t == GT then Tok(StartTagNoAtts, p + 1)
                         else if t == SOL then Scan(enc, TagSlash(false), s, p + 1) else Invalid(p);
            && Scan(enc, TagName, s, p) == CaseAt(enc, NameCase(enc, s[p..]), TagName, s, p, other)
            && Scan(enc, TagSpace, s, p) == CaseAt(enc, NmstrtCase(enc, s[p..]), AttName, s, p, other)
  {
    hide Scan; hide NmstrtCase; hide NameCase; hide CaseAt; hide ByCase; hide Space; hide StepTag;
    TagUnfold(enc, TagName, s, p);
    TagUnfold(enc, TagSpace, s, p);
    TagSteps(enc, s[p..]);
    var t := enc.byteType(s[p]);
    var other := if Space(t) then Scan(enc, TagSpace, s, p + 1) else if t == GT then Tok(StartTagNoAtts, p + 1)
                 else if t == SOL then Scan(enc, TagSlash(false), s, p + 1) else Invalid(p);
    CaseFollow(enc, NameCase(enc, s[p..]), TagName, s, p, NameOver(t), other);
    CaseFollow(enc, NmstrtCase(enc, s[p..]), AttName, s, p, NameOver(t), other);
  }

  function NameOver(t: ByteType): Action
  {
    if Space(t) then Go(1, TagSpace) else if t == GT then Accept(StartTagNoAtts, 1) else if t == SOL then Go(1, TagSlash(false)) else Reject(0)
  }

  lemma {:induction false} TagSteps(enc: Encoding, w: string)
    requires w != ""
    ensures StepTag(enc, TagName, w) == ByCase(NameCase(enc, w), TagName, NameOver(enc.byteType(w[0])))
    ensures StepTag(enc, TagSpace, w) == ByCase(NmstrtCase(enc, w), AttName, NameOver(enc.byteType(w[0])))
  {
    hide NmstrtCase; hide NameCase; hide ByCase;
  }

  /** The white space behind the element name: attributes, or the end of the tag. */
  method ScanTagSpace(enc: Encoding, s: string, start: nat) returns (v: Verdict)
    requires start <= |s|
    ensures v == Scan(enc, TagSpace, s, start)
  {
    hide Scan; hide NameCase; hide NmstrtCase;
    var ptr, end := start, |s|;
    while ptr != end
      invariant start <= ptr <= end
      invariant Scan(enc, TagSpace, s, start) == Scan(enc, TagSpace, s, ptr)
      decreases end - ptr
    {
      TagCases(enc, s, ptr);
      match NmstrtCase(enc, s[ptr..])
      case Cut => return PartialChar;
      case Bad => return Invalid(ptr);
      case Take(n) => v := ScanAtts(enc, s, ptr + n); return v;
      case NotListed =>
        var t := enc.byteType(s[ptr]);
        if t == GT { return Tok(StartTagNoAtts, ptr + 1); }
        if t == SOL { v := ScanSlash(enc, s, ptr + 1, false); return v; }
        if !Space(t) { return Invalid(ptr); }
        ptr := ptr + 1;
    }
    NothingScanned(enc, TagSpace, s);
    return Partial;
  }

  /** The loop over character data that ends contentTok. */
  method ScanData(enc: Encoding, s: string, start: nat) returns (v: Verdict)
    requires start <= |s|
    ensures v == DataRun(enc, s, start)
  {
    hide DataRun;
    var ptr, end := start, |s|;
    while ptr != end
      invariant start <= ptr <= end
      invariant DataRun(enc, s, start) == DataRun(enc, s, ptr)
      decreases end - ptr
    {
      DataRunUnfold(enc, s, ptr);
      var t := enc.byteType(s[ptr]);
      match t
      case LEAD2 | LEAD3 | LEAD4 =>
        var n := LeadLength(t);
        assert end - ptr >= n ==> s[ptr..][..n] == s[ptr..ptr + n];
        if end - ptr < n || enc.isInvalid(s[ptr..ptr + n]) { return Tok(DataChars, ptr); }
        ptr := ptr + n;
      case RSQB =>
        if ptr + 1 == end { return Tok(DataChars, ptr); }
        if s[ptr + 1] == ']' {
          if ptr + 2 == end { return Tok(DataChars, ptr); }
          if s[ptr + 2] == '>' { return Invalid(ptr + 2); }
        }
        ptr := ptr + 1;
      case AMP | LT | NONXML | MALFORM | TRAIL | CR | LF => return Tok(DataChars, ptr);
      case _ => ptr := ptr + 1;
    }
    assert DataRun(enc, s, ptr) == Tok(DataChars, ptr) by { DataRunEnd(enc, s); }
    return Tok(DataChars, ptr);
  }

  lemma {:induction false} DataRunEnd(enc: Encoding, s: string)
    ensures DataRun(enc, s, |s|) == Tok(DataChars, |s|) && CdataRun(enc, s, |s|) == |s|
  {
  }

  method ContentTokenize(enc: Encoding, s: string) returns (v: Verdict)
    ensures v == ContentTok(enc, s)
  {
    hide Scan; hide Step; hide DataRun;
    if s == "" { return NoBytes; }
    var t := enc.byteType(s[0]);
    var ptr := 1;
    if t == LT {
      v := ScanLt(enc, s, 1);
      return v;
    } else if t == AMP {
      v := ScanRef(enc, s, 1);
      return v;
    } else if t == CR {
      if 1 == |s| { return TrailingCr; }
      return Tok(DataNewline, if enc.byteType(s[1]) == LF then 2 else 1);
    } else if t == LF {
      return Tok(DataNewline, 1);
    } else if t == RSQB {
      if 1 == |s| { return TrailingRsqb; }
      if s[1] == ']' {
        if 2 == |s| { return TrailingRsqb; }
        if s[2] == '>' { return Invalid(2); }
      }
    } else {
      var c := InvalidCase(enc, s);
      if c.Cut? { return PartialChar; }
      if c.Bad? { return Invalid(0); }
      if c.Take? { ptr := c.n; }
    }
    v := ScanData(enc, s, ptr);
  }

  /** The loop over character data that ends cdataSectionTok. */
  method ScanCdataChars(enc: Encoding, s: string, start: nat) returns (ptr: nat)
    requires start <= |s|
    ensures ptr == CdataRun(enc, s, start)
  {
    hide CdataRun;
    ptr := start;
    while ptr != |s|
      invariant start <= ptr <= |s|
      invariant CdataRun(enc, s, start) == CdataRun(enc, s, ptr)
      decreases |s| - ptr
    {
      CdataRunUnfold(enc, s, ptr);
      var t := enc.byteType(s[ptr]);
      match t
      case LEAD2 | LEAD3 | LEAD4 =>
        var n := LeadLength(t);
        assert |s| - ptr >= n ==> s[ptr..][..n] == s[ptr..ptr + n];
        if |s| - ptr < n || enc.isInvalid(s[ptr..ptr + n]) { return ptr; }
        ptr := ptr + n;
      case NONXML | MALFORM | TRAIL | CR | LF | RSQB => return ptr;
      case _ => ptr := ptr + 1;
    }
    DataRunEnd(enc, s);
  }

  method CdataSectionTokenize(enc: Encoding, s: string) returns (v: Verdict)
    ensures v == CdataTok(enc, s)
  {
    hide CdataRun;
    if s == "" { return NoBytes; }
    var ptr := 1;
    var t := enc.byteType(s[0]);
    if t == RSQB {
      if 1 == |s| { return Partial; }
      if s[1] == ']' {
        if 2 == |s| { return Partial; }
        if s[2] == '>' { return Tok(CdataSectClose, 3); }
      }
    } else if t == CR {
      if 1 == |s| { return Partial; }
      return Tok(DataNewline, if enc.byteType(s[1]) == LF then 2 else 1);
    } else if t == LF {
      return Tok(DataNewline, 1);
    } else {
      var c := InvalidCase(enc, s);
      if c.Cut? { return PartialChar; }
      if c.Bad? { return Invalid(0); }
      if c.Take? { ptr := c.n; }
    }
    ptr := ScanCdataChars(enc, s, ptr);
    return Tok(DataChars, ptr);
  }

  // ---- Prolog ----

  /** scanPercent: `start` is behind "%". */
  method ScanPercent(enc: Encoding, s: string, start: nat) returns (v: Verdict)
    requires start <= |s|
    ensures v == Scan(enc, PercentOpen, s, start)
  {
    hide Scan; hide NameCase; hide NmstrtCase;
    var ptr, end := start, |s|;
    if ptr == end { NothingScanned(enc, PercentOpen, s); return Partial; }
    PercentOpens(enc, s, ptr);
    match NmstrtCase(enc, s[ptr..]) {
      case Cut => return PartialChar;
      case Bad => return Invalid(ptr);
      case Take(n) => ptr := ptr + n;
      case NotListed =>
        var t := enc.byteType(s[ptr]);
        if Space(t) || t == PERCNT { return Tok(Percent, ptr); }
        return Invalid(ptr);
    }
    while ptr != end
      invariant start <= ptr <= end
      invariant Scan(enc, PercentOpen, s, start) == Scan(enc, PercentName, s, ptr)
      decreases end - ptr
    {
      PercentNames(enc, s, ptr);
      match NameCase(enc, s[ptr..])
      case Cut => return PartialChar;
      case Bad => return Invalid(ptr);
      case Take(n) => ptr := ptr + n;
      case NotListed =>
        if enc.byteType(s[ptr]) == SEMI { return Tok(ParamEntityRef, ptr + 1); }
        return Invalid(ptr);
    }
    NothingScanned(enc, PercentName, s);
    return Partial;
  }

  /** scanPoundName: `start` is behind "#". */
  method ScanPoundName(enc: Encoding, s: string, start: nat) returns (v: Verdict)
    requires start <= |s|
    ensures v == Scan(enc, PoundOpen, s, start)
  {
    hide Scan; hide NameCase; hide NmstrtCase;
    var ptr, end := start, |s|;
    if ptr == end { NothingScanned(enc, PoundOpen, s); return Partial; }
    PoundOpens(enc, s, ptr);
    match NmstrtCase(enc, s[ptr..]) {
      case Cut => return PartialChar;
      case Bad => return Invalid(ptr);
      case NotListed => return Invalid(ptr);
      case Take(n) => ptr := ptr + n;
    }
    while ptr != end
      invariant start <= ptr <= end
      invariant Scan(enc, PoundOpen, s, start) == Scan(enc, PoundNameRest, s, ptr)
      decreases end - ptr
    {
      PoundNames(enc, s, ptr);
      match NameCase(enc, s[ptr..])
      case Cut => return PartialChar;
      case Bad => return Invalid(ptr);
      case Take(n) => ptr := ptr + n;
      case NotListed =>
        var t := enc.byteType(s[ptr]);
        if Space(t) || t == RPAR || t == GT || t == PERCNT || t == VERBAR { return Tok(PoundName, ptr); }
        return Invalid(ptr);
    }
    NothingScanned(enc, PoundNameRest, s);
    return Partial;
  }

  /** scanLit: `start` is behind the opening quote. */
  method ScanLit(enc: Encoding, open: ByteType, s: string, start: nat) returns (v: Verdict)
    requires start <= |s|
    ensures v == Scan(enc, LitBody(open), s, start)
  {
    hide Scan; hide Step; hide StepDeclStart; hide StepDeclName; hide StepPercent; hide StepPound; hide StepPrologName; hide InvalidCase; hide NameCase; hide NmstrtCase;
    var ptr, end := start, |s|;
    while ptr != end
      invariant start <= ptr <= end
      invariant Scan(enc, LitBody(open), s, start) == Scan(enc, LitBody(open), s, ptr)
      decreases end - ptr
    {
      PrologUnfold(enc, LitBody(open), s, ptr);
      match InvalidCase(enc, s[ptr..])
      case Cut => return PartialChar;
      case Bad => return Invalid(ptr);
      case Take(n) => ptr := ptr + n;
      case NotListed =>
        var t := enc.byteType(s[ptr]);
        ptr := ptr + 1;
        if t == open && (t == QUOT || t == APOS) {
          PrologUnfold(enc, LitEnd, s, ptr);
          if ptr == end { return Partial; }
          var t' := enc.byteType(s[ptr]);
          if Space(t') || t' == GT || t' == PERCNT || t' == LSQB { return Tok(Literal, ptr); }
          return Invalid(ptr);
        }
    }
    PrologUnfold(enc, LitBody(open), s, ptr);
    return Partial;
  }

  /** The loop over a name or name token that ends prologTok. */
  method ScanPrologName(enc: Encoding, tok: Token, s: string, start: nat) returns (v: Verdict)
    requires start <= |s|
    ensures v == Scan(enc, PrologName(tok), s, start)
  {
    hide Scan; hide Step; hide StepDeclStart; hide StepDeclName; hide StepPercent; hide StepPound; hide StepLit; hide InvalidCase; hide NameCase; hide NmstrtCase;
    var ptr, end := start, |s|;
    while ptr != end
      invariant start <= ptr <= end
      invariant Scan(enc, PrologName(tok), s, start) == Scan(enc, PrologName(tok), s, ptr)
      decreases end - ptr
    {
      PrologUnfold(enc, PrologName(tok), s, ptr);
      match NameCase(enc, s[ptr..])
      case Cut => return PartialChar;
      case Bad => return Invalid(ptr);
      case Take(n) => ptr := ptr + n;
      case NotListed =>
        var t := enc.byteType(s[ptr]);
        if Space(t) || t == GT || t == RPAR || t == COMMA || t == VERBAR || t == LSQB || t == PERCNT { return Tok(tok, ptr); }
        if t == PLUS || t == AST || t == QUEST {
          if tok == Nmtoken { return Invalid(ptr); }
          return Tok(if t == PLUS then NamePlus else if t == AST then NameAsterisk else NameQuestion, ptr + 1);
        }
        return Invalid(ptr);
    }
    PrologUnfold(enc, PrologName(tok), s, ptr);
    return Partial;
  }

  /** The white-space loop of prologTok. */
  method SkipPrologSpace(enc: Encoding, s: string) returns (ptr: nat)
    requires s != ""
    ensures ptr == SpaceRun(enc, s, 1)
  {
    ptr := 0;
    while true
      invariant 0 <= ptr < |s|
      invariant SpaceRun(enc, s, 1) == SpaceRun(enc, s, ptr + 1)
      decreases |s| - ptr
    {
      ptr := ptr + 1;
      if ptr == |s| { return ptr; }
      var t := enc.byteType(s[ptr]);
      if t != S && t != LF && (t != CR || ptr + 1 == |s|) { return ptr; }
    }
  }

  method PrologTokenize(enc: Encoding, s: string) returns (v: Verdict)
    ensures v == PrologTok(enc, s)
  {
    hide Scan; hide Step; hide SpaceRun;
    if s == "" { return NoBytes; }
    var t := enc.byteType(s[0]);
    match t
    case QUOT | APOS => v := ScanLit(enc, t, s, 1);
    case LT =>
      if 1 == |s| { return Partial; }
      match enc.byteType(s[1]) {
        case EXCL => v := ScanDecl(enc, s, 2);
        case QUEST => v := ScanPi(enc, s, 2);
        case NMSTRT | HEX | NONASCII | LEAD2 | LEAD3 | LEAD4 => return Tok(InstanceStart, 0);
        case _ => return Invalid(1);
      }
    case CR | S | LF =>
      if t == CR && 1 == |s| { return TrailingCr; }
      var ptr := SkipPrologSpace(enc, s);
      return Tok(PrologS, ptr);
    case PERCNT => v := ScanPercent(enc, s, 1);
    case COMMA => return Tok(Comma, 1);
    case LSQB => return Tok(OpenBracket, 1);
    case RSQB =>
      if 1 == |s| { return Partial; }
      if s[1] == ']' {
        if 2 == |s| { return Partial; }
        if s[2] == '>' { return Tok(CondSectClose, 3); }
      }
      return Tok(CloseBracket, 1);
    case LPAR => return Tok(OpenParen, 1);
    case RPAR =>
      if 1 == |s| { return Partial; }
      match enc.byteType(s[1]) {
        case AST => return Tok(CloseParenAsterisk, 2);
        case QUEST => return Tok(CloseParenQuestion, 2);
        case PLUS => return Tok(CloseParenPlus, 2);
        case CR | LF | S | GT | COMMA | VERBAR | RPAR => return Tok(CloseParen, 1);
        case _ => return Invalid(1);
      }
    case VERBAR => return Tok(Or, 1);
    case GT => return Tok(DeclClose, 1);
    case NUM => v := ScanPoundName(enc, s, 1);
    case LEAD2 | LEAD3 | LEAD4 =>
      var n := LeadLength(t);
      if |s| < n { return PartialChar; }
      if !enc.isNmstrt(s[..n]) && !enc.isName(s[..n]) { return Invalid(0); }
      v := ScanPrologName(enc, if enc.isNmstrt(s[..n]) then Name else Nmtoken, s, n);
    case NMSTRT | HEX => v := ScanPrologName(enc, Name, s, 1);
    case DIGIT | NAME | MINUS => v := ScanPrologName(enc, Nmtoken, s, 1);
    case _ => return Invalid(0);
  }

  // ---- Names, numbers and attributes ----

  method AttributeValueTokenize(enc: Encoding, s: string) returns (v: Verdict)
    ensures v == AttributeValueTok(enc, s)
  {
    hide Scan; hide Step;
    if s == "" { return NoBytes; }
    var ptr := 0;
    while ptr != |s|
      invariant 0 <= ptr <= |s|
      invariant ptr > 0 ==> AttributeValueTok(enc, s) == ValueRun(enc, s, ptr)
      decreases |s| - ptr
    {
      var t := enc.byteType(s[ptr]);
      match t
      case LEAD2 | LEAD3 | LEAD4 => if |s| - ptr < LeadLength(t) { return Tok(DataChars, |s|); } ptr := ptr + LeadLength(t);
      case AMP =>
        if ptr > 0 { return Tok(DataChars, ptr); }
        v := ScanRef(enc, s, 1);
        return v;
      case LT => return Invalid(ptr);
      case LF =>
        if ptr > 0 { return Tok(DataChars, ptr); }
        return Tok(DataNewline, 1);
      case CR =>
        if ptr > 0 { return Tok(DataChars, ptr); }
        if |s| == 1 { return TrailingCr; }
        return Tok(DataNewline, if enc.byteType(s[1]) == LF then 2 else 1);
      case S =>
        if ptr > 0 { return Tok(DataChars, ptr); }
        return Tok(AttributeValueS, 1);
      case _ => ptr := ptr + 1;
    }
    return Tok(DataChars, ptr);
  }

  /** nameLength, as the position behind the name. */
  method NameLength(enc: Encoding, s: string, start: nat) returns (ptr: nat)
    requires start <= |s|
    ensures ptr == NameEnd(enc, s, start)
  {
    ptr := start;
    while ptr < |s|
      invariant start <= ptr <= |s|
      invariant NameEnd(enc, s, start) == NameEnd(enc, s, ptr)
    {
      var t := enc.byteType(s[ptr]);
      match t
      case LEAD2 | LEAD3 | LEAD4 => if |s| - ptr < LeadLength(t) { return |s|; } ptr := ptr + LeadLength(t);
      case NONASCII | NMSTRT | HEX | DIGIT | NAME | MINUS => ptr := ptr + 1;
      case _ => return ptr;
    }
  }

  /** charRefNumber on a whole reference. */
  method CharacterNumber(ref: string) returns (result: int)
    requires |ref| > 2
    ensures result == CharRefNumber(ref)
  {
    result := 0;
    var ptr := 2;
    if ref[ptr] == 'x' {
      ptr := ptr + 1;
      while ptr < |ref| && ref[ptr] != ';'
        invariant 3 <= ptr <= |ref|
        invariant CharRefNumber(ref) == HexNumber(ref, ptr, result)
      {
        if HexDigit(ref[ptr]) >= 0 { result := 16 * result + HexDigit(ref[ptr]); }
        if result >= 0x110000 { return -1; }
        ptr := ptr + 1;
      }
    } else {
      while ptr < |ref| && ref[ptr] != ';'
        invariant 2 <= ptr <= |ref|
        invariant CharRefNumber(ref) == DecNumber(ref, ptr, result)
      {
        result := 10 * result + (ref[ptr] as int - '0' as int);
        if result >= 0x110000 { return -1; }
        ptr := ptr + 1;
      }
    }
    return CheckCharRefNumber(result);
  }

  /** The first pass of getAtts: the records that fit into `atts` are stored, all are counted. */
  method FillAtts(enc: Encoding, s: string, attsMax: nat) returns (nAtts: nat, atts: seq<Attribute>)
    requires s != "" && GetAtts(enc, s, 1, GETTER_START).Atts?
    ensures var list := GetAtts(enc, s, 1, GETTER_START).list;
            nAtts == |list| && atts == if |list| <= attsMax then list else list[..attsMax]
  {
    hide GetterStep; hide GetAtts;
    ghost var list := GetAtts(enc, s, 1, GETTER_START).list;
    nAtts, atts := 0, [];
    var ptr, g := 1, GETTER_START;
    while true
      invariant nAtts <= |list| && atts == if nAtts <= attsMax then list[..nAtts] else list[..attsMax]
      invariant GetAtts(enc, s, ptr, g) == Atts(list[nAtts..])
      decreases |s| - ptr
    {
      GetAttsTurn(enc, s, ptr, g);
      match GetterStep(enc, s, ptr, g)
      case Return => return nAtts, atts;
      case Move(n, g', done) =>
        if done != [] {
          Peel(list, nAtts, done[0], GetAtts(enc, s, ptr + n, g').list);
          if nAtts < attsMax { atts := atts + done; }
          nAtts := nAtts + 1;
        }
        ptr, g := ptr + n, g';
    }
  }

  lemma {:induction false} GetAttsTurn(enc: Encoding, s: string, p: nat, g: Getter)
    requires GetAtts(enc, s, p, g).Atts?
    ensures p < |s| && !GetterStep(enc, s, p, g).ReadPast?
    ensures GetterStep(enc, s, p, g).Return? ==> GetAtts(enc, s, p, g) == Atts([])
    ensures var r := GetterStep(enc, s, p, g);
            r.Move? ==>
              && GetAtts(enc, s, p + r.n, r.g).Atts? && |r.done| <= 1
              && (r.done == [] ==> GetAtts(enc, s, p, g) == GetAtts(enc, s, p + r.n, r.g))
              && (r.done != [] ==> GetAtts(enc, s, p, g).list == [r.done[0]] + GetAtts(enc, s, p + r.n, r.g).list)
  {
    hide StartName; hide Spoils;
  }

  lemma {:induction false} Peel(list: seq<Attribute>, n: nat, a: Attribute, rest: seq<Attribute>)
    requires n <= |list| && list[n..] == [a] + rest
    ensures n < |list| && list[n] == a && list[n + 1..] == rest && list[..n] + [a] == list[..n + 1]
  {
    assert list[n..][0] == a && list[n..][1..] == rest;
  }
}
