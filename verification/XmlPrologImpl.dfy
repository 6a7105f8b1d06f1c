/**
 The loops behind the prolog: entityValueTok and isPublicId of
 libjabber/xmltok_impl_c.h, and storeEntityValue of libjabber/xmlparse.c.
 */
module XmlPrologImpl {
  import opened XmlScan
  import opened XmlTok
  import opened XmlValue
  import opened XmlTokImpl
  import opened XmlProlog

  method EntityValueTokenize(enc: Encoding, s: string) returns (v: Verdict)
    ensures v == EntityValueTok(enc, s)
  {
    hide Scan; hide Step;
    if s == "" { return NoBytes; }
    var ptr := 0;
    while ptr != |s|
      invariant 0 <= ptr <= |s|
      invariant ptr > 0 ==> EntityValueTok(enc, s) == Tok(DataChars, EntityValueRun(enc, s, ptr))
      decreases |s| - ptr
    {
      var t := enc.byteType(s[ptr]);
      match t
      case LEAD2 | LEAD3 | LEAD4 => if |s| - ptr < LeadLength(t) { return Tok(DataChars, |s|); } ptr := ptr + LeadLength(t);
      case AMP =>
        if ptr > 0 { return Tok(DataChars, ptr); }
        v := ScanRef(enc, s, 1);
        return v;
      case PERCNT =>
        if ptr > 0 { return Tok(DataChars, ptr); }
        v := ScanPercent(enc, s, 1);
        return v;
      case LF =>
        if ptr > 0 { return Tok(DataChars, ptr); }
        return Tok(DataNewline, 1);
      case CR =>
        if ptr > 0 { return Tok(DataChars, ptr); }
        if |s| == 1 { return TrailingCr; }
        return Tok(DataNewline, if enc.byteType(s[1]) == LF then 2 else 1);
      case _ => ptr := ptr + 1;
    }
    return Tok(DataChars, ptr);
  }

  /** XmlIsPublicId: all bytes between the quotes are allowed in a public identifier. */
  method PublicIdCheck(enc: Encoding, literal: string) returns (ok: bool)
    requires |literal| >= 2
    ensures ok == IsPublicId(enc, literal)
  {
    hide PubidChar;
    var ptr, end := 1, |literal| - 1;
    assert Inner(literal) == literal[1..end];
    while ptr != end
      invariant 1 <= ptr <= end
      invariant forall i :: 0 <= i < ptr - 1 ==> PubidChar(enc, Inner(literal)[i])
      decreases end - ptr
    {
      assert Inner(literal)[ptr - 1] == literal[ptr];
      if !PubidChar(enc, literal[ptr]) { return false; }
      ptr := ptr + 1;
    }
    return true;
  }

  /** One turn of storeEntityValue, as the value it leads to. */
  lemma {:induction false} EntityValueTurn(enc: Encoding, w: string)
    ensures var v := EntityValueTok(enc, w);
            EntityValue(enc, w) ==
            match v
            case NoBytes => Value("")
            case Invalid(_) => ValueError(InvalidToken)
            case Partial => ValueError(InvalidToken)
            case TrailingCr => Before("\n", EntityValue(enc, w[1..]))
            case Tok(tok, next) =>
              if tok == ParamEntityRef then ValueError(Syntax)
              else if tok == DataNewline then Before("\n", EntityValue(enc, w[next..]))
              else if tok == EntityRef || tok == DataChars then Before(w[..next], EntityValue(enc, w[next..]))
              else if tok == CharRef then
                var n := CharRefNumber(w[..next]);
                if n < 0 || Utf8Encode(n) == "" then ValueError(BadCharRef) else Before(Utf8Encode(n), EntityValue(enc, w[next..]))
              else ValueError(Aborted)
            case _ => ValueError(Aborted)
  {
    hide EntityValueTok; hide CharRefNumber; hide Utf8Encode; hide Before;
  }

  lemma {:induction false} BeforeBoth(a: string, b: string, r: ValueResult)
    ensures Before(a, Before(b, r)) == Before(a + b, r) && Before(a, Value("")) == Value(a) && Before("", r) == r
  {
    if r.Value? { assert a + (b + r.text) == a + b + r.text && "" + r.text == r.text; }
    assert a + "" == a;
  }

  /** storeEntityValue, for the bytes between the quotes. */
  method StoreEntityValue(enc: Encoding, text: string) returns (err: Option<Error>, pool: string)
    ensures match EntityValue(enc, text)
            case ValueError(code) => err == Some(code)
            case Value(value) => err == None && pool == value
  {
    hide EntityValueTok; hide EntityValue; hide CharRefNumber; hide Utf8Encode; hide Before;
    pool := "";
    var ptr := 0;
    assert text[0..] == text;
    BeforeBoth("", "", EntityValue(enc, text));
    while true
      invariant ptr <= |text| && EntityValue(enc, text) == Before(pool, EntityValue(enc, text[ptr..]))
      decreases |text| - ptr
    {
      ghost var w := text[ptr..];
      var v := EntityValueTokenize(enc, text[ptr..]);
      EntityValueTurn(enc, w);
      match v
      case NoBytes =>
        BeforeBoth(pool, "", Value(""));
        return None, pool;
      case Invalid(_) =>
        FailsBefore(pool, InvalidToken);
        return Some(InvalidToken), pool;
      case Partial =>
        FailsBefore(pool, InvalidToken);
        return Some(InvalidToken), pool;
      case TrailingCr =>
        assert w[1..] == text[ptr + 1..];
        BeforeBoth(pool, "\n", EntityValue(enc, w[1..]));
        pool := pool + "\n";
        ptr := ptr + 1;
      case Tok(tok, n) =>
        var token := text[ptr..ptr + n];
        assert w[..n] == token && w[n..] == text[ptr + n..];
        match tok {
          case ParamEntityRef =>
            FailsBefore(pool, Syntax);
            return Some(Syntax), pool;
          case EntityRef | DataChars =>
            BeforeBoth(pool, token, EntityValue(enc, w[n..]));
            pool := pool + token;
          case DataNewline =>
            BeforeBoth(pool, "\n", EntityValue(enc, w[n..]));
            pool := pool + "\n";
          case CharRef =>
            var c := CharRefNumber(token);
            if c < 0 || Utf8Encode(c) == "" {
              FailsBefore(pool, BadCharRef);
              return Some(BadCharRef), pool;
            }
            BeforeBoth(pool, Utf8Encode(c), EntityValue(enc, w[n..]));
            pool := pool + Utf8Encode(c);
          case _ =>
            FailsBefore(pool, Aborted);
            return Some(Aborted), pool;
        }
        ptr := ptr + n;
      case _ =>
        FailsBefore(pool, Aborted);
        return Some(Aborted), pool;
    }
  }

  lemma {:induction false} FailsBefore(pool: string, code: Error)
    ensures Before(pool, ValueError(code)) == ValueError(code)
  {
  }
}
