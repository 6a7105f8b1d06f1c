/**
 The entry points of the tokenizer: content, CDATA section and prolog
 (contentTok, cdataSectionTok and prologTok of libjabber/xmltok_impl_c.h).

 A run of character data or of prolog white space ends at the end of the bytes
 at hand, so it is the one kind of token that may change when more arrive.  The
 `...Grows` lemmas say exactly how: tokenizing again from where the short run
 ended yields the rest of the long one.
 */
module XmlTok {
  import opened XmlScan

  /** Moves a verdict on a suffix to the positions of the whole. */
  function Shift(k: nat, v: Verdict): Verdict
  {
    match v
    case Tok(tok, next) => Tok(tok, k + next)
    case Invalid(at) => Invalid(k + at)
    case _ => v
  }

  // ---- Content ----

  /** How a run of data goes on at the bytes in front: over the next character, no further, or not allowed. */
  datatype RunStep = Over(n: nat) | Stop | BadByte(n: nat)

  function DataStep(enc: Encoding, w: string): (r: RunStep)
    requires w != ""
    ensures r.Over? ==> 1 <= r.n <= |w|
    ensures r.BadByte? ==> r.n < |w|
  {
    var t := enc.byteType(w[0]);
    match t
    case LEAD2 | LEAD3 | LEAD4 =>
      var n := LeadLength(t);
      if |w| < n || enc.isInvalid(w[..n]) then Stop else Over(n)
    case RSQB =>
      if |w| == 1 then Stop
      else if w[1] != ']' then Over(1)
      else if |w| == 2 then Stop
      else if w[2] != '>' then Over(1)
      else BadByte(2)
    case AMP | LT | NONXML | MALFORM | TRAIL | CR | LF => Stop
    case _ => Over(1)
  }

  function DataRun(enc: Encoding, s: string, p: nat): (v: Verdict)
    requires p <= |s|
    ensures v.Final()
    ensures v.Tok? ==> v.tok == DataChars && p <= v.next <= |s|
    ensures v.Invalid? ==> p <= v.at < |s|
    decreases |s| - p
  {
    if p == |s| then Tok(DataChars, p)
    else
      match DataStep(enc, s[p..])
      case Over(n) => DataRun(enc, s, p + n)
      case Stop => Tok(DataChars, p)
      case BadByte(n) => Invalid(p + n)
  }

  lemma {:induction false} DataRunUnfold(enc: Encoding, s: string, p: nat)
    requires p < |s|
    ensures DataRun(enc, s, p) == match DataStep(enc, s[p..]) { case Over(n) => DataRun(enc, s, p + n) case Stop => Tok(DataChars, p) case BadByte(n) => Invalid(p + n) }
  {
    hide DataStep;
  }

  function ContentTok(enc: Encoding, w: string): (v: Verdict)
    ensures v.Tok? ==> 1 <= v.next <= |w|
    ensures v.Invalid? ==> v.at < |w|
    ensures v.NoBytes? <==> w == ""
  {
    if w == "" then NoBytes
    else
      var t := enc.byteType(w[0]);
      match t
      case LT => Scan(enc, LtOpen, w, 1)
      case AMP => Scan(enc, RefOpen(InContent), w, 1)
      case CR => if |w| == 1 then TrailingCr else Tok(DataNewline, if enc.byteType(w[1]) == LF then 2 else 1)
      case LF => Tok(DataNewline, 1)
      case RSQB =>
        if |w| == 1 then TrailingRsqb
        else if w[1] != ']' then DataRun(enc, w, 1)
        else if |w| == 2 then TrailingRsqb
        else if w[2] != '>' then DataRun(enc, w, 1)
        else Invalid(2)
      case LEAD2 | LEAD3 | LEAD4 =>
        var n := LeadLength(t);
        if |w| < n then PartialChar else if enc.isInvalid(w[..n]) then Invalid(0) else DataRun(enc, w, n)
      case NONXML | MALFORM | TRAIL => Invalid(0)
      case _ => DataRun(enc, w, 1)
  }

  lemma {:induction false} DataStepStable(enc: Encoding, s: string, t: string, p: nat)
    requires p < |s| && !DataStep(enc, s[p..]).Stop?
    ensures DataStep(enc, (s + t)[p..]) == DataStep(enc, s[p..])
  {
    var w, u := s[p..], (s + t)[p..];
    assert u == w + t;
    var n := LeadLength(enc.byteType(w[0]));
    if n != 0 { assert u[..n] == w[..n]; }
  }

  lemma {:induction false} DataRunExtend(enc: Encoding, s: string, t: string, p: nat)
    requires p <= |s|
    ensures var v := DataRun(enc, s, p);
            DataRun(enc, s + t, p) == if v.Tok? then DataRun(enc, s + t, v.next) else v
    decreases |s| - p
  {
    hide DataStep;
    if p < |s| && !DataStep(enc, s[p..]).Stop? {
      DataStepStable(enc, s, t, p);
      var r := DataStep(enc, s[p..]);
      if r.Over? { DataRunExtend(enc, s, t, p + r.n); }
    }
  }

  lemma {:induction false} DataRunShift(enc: Encoding, s: string, k: nat, p: nat)
    requires k + p <= |s|
    ensures DataRun(enc, s, k + p) == Shift(k, DataRun(enc, s[k..], p))
    decreases |s| - p
  {
    hide DataStep;
    if k + p < |s| {
      assert s[k..][p..] == s[k + p..];
      var r := DataStep(enc, s[k + p..]);
      if r.Over? { DataRunShift(enc, s, k, p + r.n); }
    }
  }

  /** The first character of character data is taken as the later ones are. */
  lemma {:induction false} DataFirst(enc: Encoding, w: string)
    requires w != "" && !DataStep(enc, w).Stop?
    ensures var r := DataStep(enc, w);
            ContentTok(enc, w) == if r.Over? then DataRun(enc, w, r.n) else Invalid(r.n)
  {
    hide Scan; hide DataRun;
  }

  /** Where a run goes on, tokenizing from there gives the same end, or the same bad byte. */
  lemma {:induction false} DataRunResume(enc: Encoding, s: string, k: nat)
    requires k <= |s| && DataRun(enc, s, k) != Tok(DataChars, k)
    ensures Shift(k, ContentTok(enc, s[k..])) == DataRun(enc, s, k)
  {
    hide DataStep; hide ContentTok;
    var r := DataStep(enc, s[k..]);
    DataFirst(enc, s[k..]);
    if r.Over? { DataRunShift(enc, s, k, r.n); }
  }

  /** Where the first character of the data ends does not depend on what follows. */
  lemma {:induction false} DataStarts(enc: Encoding, w: string, t: string) returns (p: nat)
    requires var v := ContentTok(enc, w); v.Tok? && v.tok == DataChars
    requires enc.byteType(w[0]) != LT && enc.byteType(w[0]) != AMP
    ensures p <= |w| && ContentTok(enc, w) == DataRun(enc, w, p)
    ensures ContentTok(enc, w + t) == DataRun(enc, w + t, p)
  {
    hide DataRun; hide Scan;
    assert (w + t)[0] == w[0];
    var n := LeadLength(enc.byteType(w[0]));
    p := if n == 0 then 1 else n;
    if n != 0 { assert (w + t)[..n] == w[..n]; }
  }

  lemma {:induction false} NoDataGrows(enc: Encoding, w: string, t: string)
    requires var v := ContentTok(enc, w); v.Final() && !(v.Tok? && v.tok == DataChars)
    requires enc.byteType(w[0]) != LT && enc.byteType(w[0]) != AMP
    ensures ContentTok(enc, w + t) == ContentTok(enc, w)
  {
    hide Scan; hide DataRun;
    var ty := enc.byteType(w[0]);
    assert (w + t)[0] == w[0];
    var n := LeadLength(ty);
    if n != 0 && n <= |w| { assert (w + t)[..n] == w[..n]; }
    DataRunExtend(enc, w, t, if n == 0 || n > |w| then 1 else n);
  }

  /** Content tokens are final, but for character data: there, tokenizing the grown input gives the
      old run, or whatever tokenizing from the end of the old run gives. */
  lemma {:induction false} ContentTokGrows(enc: Encoding, w: string, t: string)
    requires ContentTok(enc, w).Final()
    ensures var v := ContentTok(enc, w); var v' := ContentTok(enc, w + t);
            || v' == v
            || (v.Tok? && v.tok == DataChars && v' == Shift(v.next, ContentTok(enc, (w + t)[v.next..]))
                && (v'.Invalid? || (v'.Tok? && v'.tok == DataChars && v'.next > v.next)))
  {
    var v := ContentTok(enc, w);
    if v.Tok? && v.tok == DataChars && enc.byteType(w[0]) != LT && enc.byteType(w[0]) != AMP {
      hide ContentTok; hide DataRun;
      var p := DataStarts(enc, w, t);
      DataRunExtend(enc, w, t, p);
      if DataRun(enc, w + t, v.next) != v {
        DataRunResume(enc, w + t, v.next);
      }
    } else if enc.byteType(w[0]) == LT || enc.byteType(w[0]) == AMP {
      MarkupGrows(enc, w, t);
    } else {
      NoDataGrows(enc, w, t);
    }
  }

  lemma {:induction false} MarkupGrows(enc: Encoding, w: string, t: string)
    requires w != "" && ContentTok(enc, w).Final() && (enc.byteType(w[0]) == LT || enc.byteType(w[0]) == AMP)
    ensures ContentTok(enc, w + t) == ContentTok(enc, w)
  {
    hide Scan; hide DataRun;
    assert (w + t)[0] == w[0];
    ScanStable(enc, if enc.byteType(w[0]) == LT then LtOpen else RefOpen(InContent), w, t, 1);
  }

  // ---- CDATA section ----

  function CdataStep(enc: Encoding, w: string): (n: nat)
    requires w != ""
    ensures n <= |w|
  {
    var t := enc.byteType(w[0]);
    match t
    case LEAD2 | LEAD3 | LEAD4 => if |w| < LeadLength(t) || enc.isInvalid(w[..LeadLength(t)]) then 0 else LeadLength(t)
    case NONXML | MALFORM | TRAIL | CR | LF | RSQB => 0
    case _ => 1
  }

  function CdataRun(enc: Encoding, s: string, p: nat): (next: nat)
    requires p <= |s|
    ensures p <= next <= |s|
    decreases |s| - p
  {
    if p == |s| || CdataStep(enc, s[p..]) == 0 then p else CdataRun(enc, s, p + CdataStep(enc, s[p..]))
  }

  lemma {:induction false} CdataRunUnfold(enc: Encoding, s: string, p: nat)
    requires p < |s|
    ensures var n := CdataStep(enc, s[p..]); CdataRun(enc, s, p) == if n == 0 then p else CdataRun(enc, s, p + n)
  {
    hide CdataStep;
  }

  function CdataTok(enc: Encoding, w: string): (v: Verdict)
    ensures v.Tok? ==> 1 <= v.next <= |w|
    ensures v.Tok? ==> v.tok == CdataSectClose || v.tok == DataNewline || v.tok == DataChars
    ensures v.NoBytes? <==> w == ""
    ensures !v.TrailingCr? && !v.TrailingRsqb?
  {
    if w == "" then NoBytes
    else
      var t := enc.byteType(w[0]);
      match t
      case RSQB =>
        if |w| == 1 then Partial
        else if w[1] != ']' then Tok(DataChars, CdataRun(enc, w, 1))
        else if |w| == 2 then Partial
        else if w[2] != '>' then Tok(DataChars, CdataRun(enc, w, 1))
        else Tok(CdataSectClose, 3)
      case CR => if |w| == 1 then Partial else Tok(DataNewline, if enc.byteType(w[1]) == LF then 2 else 1)
      case LF => Tok(DataNewline, 1)
      case LEAD2 | LEAD3 | LEAD4 =>
        var n := LeadLength(t);
        if |w| < n then PartialChar else if enc.isInvalid(w[..n]) then Invalid(0) else Tok(DataChars, CdataRun(enc, w, n))
      case NONXML | MALFORM | TRAIL => Invalid(0)
      case _ => Tok(DataChars, CdataRun(enc, w, 1))
  }

  lemma {:induction false} CdataStepStable(enc: Encoding, s: string, t: string, p: nat)
    requires p < |s| && CdataStep(enc, s[p..]) > 0
    ensures CdataStep(enc, (s + t)[p..]) == CdataStep(enc, s[p..])
  {
    var w, u := s[p..], (s + t)[p..];
    assert u == w + t;
    var n := LeadLength(enc.byteType(w[0]));
    if n != 0 { assert u[..n] == w[..n]; }
  }

  /** The run on a prefix is a prefix of the run on the extension. */
  lemma {:induction false} CdataRunExtend(enc: Encoding, s: string, t: string, p: nat)
    requires p <= |s|
    ensures CdataRun(enc, s + t, p) == CdataRun(enc, s + t, CdataRun(enc, s, p))
    decreases |s| - p
  {
    hide CdataStep;
    if p < |s| && CdataStep(enc, s[p..]) > 0 {
      CdataStepStable(enc, s, t, p);
      CdataRunExtend(enc, s, t, p + CdataStep(enc, s[p..]));
    }
  }

  lemma {:induction false} CdataRunShift(enc: Encoding, s: string, k: nat, p: nat)
    requires k + p <= |s|
    ensures CdataRun(enc, s, k + p) == k + CdataRun(enc, s[k..], p)
    decreases |s| - p
  {
    hide CdataStep;
    if k + p < |s| {
      assert s[k..][p..] == s[k + p..];
      if CdataStep(enc, s[k + p..]) > 0 { CdataRunShift(enc, s, k, p + CdataStep(enc, s[k + p..])); }
    }
  }

  lemma {:induction false} CdataFirst(enc: Encoding, w: string)
    requires w != "" && CdataStep(enc, w) > 0
    ensures CdataTok(enc, w) == Tok(DataChars, CdataRun(enc, w, CdataStep(enc, w)))
  {
    hide CdataRun;
  }

  lemma {:induction false} CdataRunResume(enc: Encoding, s: string, k: nat)
    requires k <= |s| && CdataRun(enc, s, k) > k
    ensures Shift(k, CdataTok(enc, s[k..])) == Tok(DataChars, CdataRun(enc, s, k))
  {
    hide CdataStep; hide CdataTok;
    CdataFirst(enc, s[k..]);
    CdataRunShift(enc, s, k, CdataStep(enc, s[k..]));
  }

  lemma {:induction false} CdataTokGrows(enc: Encoding, w: string, t: string)
    requires CdataTok(enc, w).Final()
    ensures var v := CdataTok(enc, w); var v' := CdataTok(enc, w + t);
            || v' == v
            || (v.Tok? && v.tok == DataChars && v'.Tok? && v'.tok == DataChars && v'.next > v.next
                && v' == Shift(v.next, CdataTok(enc, (w + t)[v.next..])))
  {
    var v := CdataTok(enc, w);
    if v.Tok? && v.tok == DataChars {
      hide CdataTok; hide CdataRun;
      var p := CdataStarts(enc, w, t);
      CdataRunExtend(enc, w, t, p);
      if CdataRun(enc, w + t, v.next) != v.next {
        CdataRunResume(enc, w + t, v.next);
      }
    } else {
      hide CdataRun;
      assert (w + t)[0] == w[0];
      var n := LeadLength(enc.byteType(w[0]));
      if n != 0 && n <= |w| { assert (w + t)[..n] == w[..n]; }
    }
  }

  /** Where the first character of the data ends does not depend on what follows. */
  lemma {:induction false} CdataStarts(enc: Encoding, w: string, t: string) returns (p: nat)
    requires CdataTok(enc, w).Tok? && CdataTok(enc, w).tok == DataChars
    ensures p <= |w| && CdataTok(enc, w) == Tok(DataChars, CdataRun(enc, w, p))
    ensures CdataTok(enc, w + t) == Tok(DataChars, CdataRun(enc, w + t, p))
  {
    hide CdataRun;
    assert (w + t)[0] == w[0];
    var n := LeadLength(enc.byteType(w[0]));
    p := if n == 0 then 1 else n;
    if n != 0 { assert (w + t)[..n] == w[..n]; }
  }

  // ---- Prolog ----

  /** White space, but for a CR in the very last byte: a CR LF pair is not split. */
  function SpaceRun(enc: Encoding, s: string, p: nat): (next: nat)
    requires p <= |s|
    ensures p <= next <= |s|
    decreases |s| - p
  {
    if p == |s| then p
    else
      match enc.byteType(s[p])
      case S | LF => SpaceRun(enc, s, p + 1)
      case CR => if p + 1 == |s| then p else SpaceRun(enc, s, p + 1)
      case _ => p
  }

  function CloseParenTok(enc: Encoding, w: string): (v: Verdict)
    requires w != ""
  {
    if |w| == 1 then Partial
    else
      match enc.byteType(w[1])
      case AST => Tok(CloseParenAsterisk, 2)
      case QUEST => Tok(CloseParenQuestion, 2)
      case PLUS => Tok(CloseParenPlus, 2)
      case CR | LF | S | GT | COMMA | VERBAR | RPAR => Tok(CloseParen, 1)
      case _ => Invalid(1)
  }

  function CloseBracketTok(w: string): (v: Verdict)
    requires w != ""
  {
    if |w| == 1 then Partial
    else if w[1] != ']' then Tok(CloseBracket, 1)
    else if |w| == 2 then Partial
    else if w[2] == '>' then Tok(CondSectClose, 3)
    else Tok(CloseBracket, 1)
  }

  /** In the prolog "<" opens a declaration, a processing instruction or, with the token left unread, the root element. */
  function PrologLt(enc: Encoding, w: string): (v: Verdict)
    requires w != ""
    ensures v.Tok? ==> v.next <= |w| && (v.next >= 1 || v.tok == InstanceStart)
    ensures v.Final() || v == Partial || v == PartialChar
  {
    if |w| == 1 then Partial
    else
      match enc.byteType(w[1])
      case EXCL => Scan(enc, DeclStart, w, 2)
      case QUEST => Scan(enc, PiOpen, w, 2)
      case NMSTRT | HEX | NONASCII | LEAD2 | LEAD3 | LEAD4 => Tok(InstanceStart, 0)
      case _ => Invalid(1)
  }

  function PrologLead(enc: Encoding, n: nat, w: string): (v: Verdict)
    requires 1 <= n
    ensures v.Tok? ==> 1 <= v.next <= |w|
    ensures v.Final() || v == Partial || v == PartialChar
  {
    if |w| < n then PartialChar
    else if enc.isNmstrt(w[..n]) then Scan(enc, PrologName(Name), w, n)
    else if enc.isName(w[..n]) then Scan(enc, PrologName(Nmtoken), w, n)
    else Invalid(0)
  }

  function PrologTok(enc: Encoding, w: string): (v: Verdict)
    ensures v.Tok? ==> v.next <= |w| && (v.next >= 1 || v.tok == InstanceStart)
    ensures v.NoBytes? <==> w == ""
    ensures v.TrailingCr? ==> |w| == 1 && enc.byteType(w[0]) == CR
    ensures !v.TrailingRsqb?
  {
    if w == "" then NoBytes
    else
      var t := enc.byteType(w[0]);
      match t
      case QUOT | APOS => Scan(enc, LitBody(t), w, 1)
      case LT => PrologLt(enc, w)
      case CR => if |w| == 1 then TrailingCr else Tok(PrologS, SpaceRun(enc, w, 1))
      case S | LF => Tok(PrologS, SpaceRun(enc, w, 1))
      case PERCNT => Scan(enc, PercentOpen, w, 1)
      case COMMA => Tok(Comma, 1)
      case LSQB => Tok(OpenBracket, 1)
      case RSQB => CloseBracketTok(w)
      case LPAR => Tok(OpenParen, 1)
      case RPAR => CloseParenTok(enc, w)
      case VERBAR => Tok(Or, 1)
      case GT => Tok(DeclClose, 1)
      case NUM => Scan(enc, PoundOpen, w, 1)
      case LEAD2 | LEAD3 | LEAD4 => PrologLead(enc, LeadLength(t), w)
      case NMSTRT | HEX => Scan(enc, PrologName(Name), w, 1)
      case DIGIT | NAME | MINUS => Scan(enc, PrologName(Nmtoken), w, 1)
      case _ => Invalid(0)
  }

  lemma {:induction false} SpaceRunExtend(enc: Encoding, s: string, t: string, p: nat)
    requires p <= |s|
    ensures SpaceRun(enc, s + t, p) == SpaceRun(enc, s + t, SpaceRun(enc, s, p))
    decreases |s| - p
  {
    if p < |s| {
      assert (s + t)[p] == s[p];
      SpaceRunExtend(enc, s, t, p + 1);
    }
  }

  lemma {:induction false} SpaceRunShift(enc: Encoding, s: string, k: nat, p: nat)
    requires k + p <= |s|
    ensures SpaceRun(enc, s, k + p) == k + SpaceRun(enc, s[k..], p)
    decreases |s| - p
  {
    if k + p < |s| {
      assert s[k..][p] == s[k + p];
      SpaceRunShift(enc, s, k, p + 1);
    }
  }

  lemma {:induction false} SpaceRunResume(enc: Encoding, s: string, k: nat)
    requires k <= |s| && SpaceRun(enc, s, k) > k
    ensures Shift(k, PrologTok(enc, s[k..])) == Tok(PrologS, SpaceRun(enc, s, k))
  {
    hide PrologLt; hide PrologLead; hide Scan; hide CloseParenTok; hide CloseBracketTok;
    assert s[k..][0] == s[k];
    SpaceRunShift(enc, s, k, 1);
  }

  lemma {:induction false} PrologLtStable(enc: Encoding, w: string, t: string)
    requires w != "" && PrologLt(enc, w).Final()
    ensures PrologLt(enc, w + t) == PrologLt(enc, w)
  {
    assert (w + t)[1] == w[1];
    if enc.byteType(w[1]) == EXCL {
      ScanStable(enc, DeclStart, w, t, 2);
    } else if enc.byteType(w[1]) == QUEST {
      ScanStable(enc, PiOpen, w, t, 2);
    }
  }

  lemma {:induction false} PrologLeadStable(enc: Encoding, n: nat, w: string, t: string)
    requires 1 <= n && PrologLead(enc, n, w).Final()
    ensures PrologLead(enc, n, w + t) == PrologLead(enc, n, w)
  {
    assert (w + t)[..n] == w[..n];
    if enc.isNmstrt(w[..n]) {
      ScanStable(enc, PrologName(Name), w, t, n);
    } else if enc.isName(w[..n]) {
      ScanStable(enc, PrologName(Nmtoken), w, t, n);
    }
  }

  lemma {:induction false} PrologSpaceGrows(enc: Encoding, w: string, t: string)
    requires w != "" && Space(enc.byteType(w[0])) && PrologTok(enc, w).Tok?
    ensures var v := PrologTok(enc, w); var v' := PrologTok(enc, w + t);
            && v.tok == PrologS && v'.Tok? && v'.tok == PrologS
            && (v' == v || (v'.next > v.next && v' == Shift(v.next, PrologTok(enc, (w + t)[v.next..]))))
  {
    hide PrologLt; hide PrologLead; hide Scan; hide CloseParenTok; hide CloseBracketTok;
    var k := SpaceRun(enc, w, 1);
    assert (w + t)[0] == w[0];
    SpaceRunExtend(enc, w, t, 1);
    if SpaceRun(enc, w + t, k) > k {
      SpaceRunResume(enc, w + t, k);
    }
  }

  /** Prolog tokens are final, but for white space. */
  lemma {:induction false} PrologTokGrows(enc: Encoding, w: string, t: string)
    requires PrologTok(enc, w).Final()
    ensures var v := PrologTok(enc, w); var v' := PrologTok(enc, w + t);
            || v' == v
            || (v.Tok? && v.tok == PrologS && v'.Tok? && v'.tok == PrologS && v'.next > v.next
                && v' == Shift(v.next, PrologTok(enc, (w + t)[v.next..])))
  {
    hide Scan; hide PrologLt; hide PrologLead;
    var ty := enc.byteType(w[0]);
    assert (w + t)[0] == w[0];
    match ty
    case QUOT | APOS => ScanStable(enc, LitBody(ty), w, t, 1);
    case PERCNT => ScanStable(enc, PercentOpen, w, t, 1);
    case NUM => ScanStable(enc, PoundOpen, w, t, 1);
    case NMSTRT | HEX => ScanStable(enc, PrologName(Name), w, t, 1);
    case DIGIT | NAME | MINUS => ScanStable(enc, PrologName(Nmtoken), w, t, 1);
    case LT => PrologLtStable(enc, w, t);
    case LEAD2 | LEAD3 | LEAD4 => PrologLeadStable(enc, LeadLength(ty), w, t);
    case CR | S | LF => PrologSpaceGrows(enc, w, t);
    case RSQB => assert |w| > 1; assert (w + t)[1] == w[1]; assert |w| > 2 ==> (w + t)[2] == w[2];
    case RPAR => assert (w + t)[1] == w[1];
    case _ =>
  }
}
