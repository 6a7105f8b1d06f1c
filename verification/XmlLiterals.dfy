/**
 Literals (sections 3.3.3 and 4.5 of XML 1.0): what storeEntityValue and
 appendAttributeValue of libjabber/xmlparse.c make of text with references in
 it, written down piece by piece.
 */
module XmlLiterals {
  import opened XmlScan
  import opened XmlTok
  import opened XmlValue
  import opened XmlContent
  import opened XmlPool
  import opened XmlTree
  import opened XmlPrinted
  import opened XmlNormal
  import opened XmlWords
  import opened XmlRoundTrip
  import opened XmlCharRefs
  import opened XmlEntities
  import opened XmlProlog

  /** What a literal is written with: text, character references and references to entities. */
  datatype Piece = Chars(text: string) | Number(hex: bool, digits: string, n: nat) | Named(name: string)

  function PrintPiece(p: Piece): string
  {
    match p case Chars(text) => text case Number(hex, digits, _) => Reference(hex, digits) case Named(name) => EntityReference(name)
  }

  function PrintPieces(l: seq<Piece>): string { if l == [] then "" else PrintPiece(l[0]) + PrintPieces(l[1..]) }

  /** Text has none of two characters in it, and no text follows text. */
  ghost predicate LegalPieces(enc: Encoding, l: seq<Piece>, c: char)
  {
    l == [] ||
    (&& (match l[0]
         case Chars(text) => LegalText(enc, text) && '&' !in text && c !in text && (|l| > 1 ==> !l[1].Chars?)
         case Number(hex, digits, n) => digits != "" && Spells(Base(hex), digits, n)
         case Named(name) => LegalName(enc, name) && LegalText(enc, name))
     && LegalPieces(enc, l[1..], c))
  }

  lemma {:induction false} BehindChars(enc: Encoding, l: seq<Piece>, c: char)
    requires LegalPieces(enc, l, c) && l != [] && l[0].Chars?
    ensures var rest := PrintPieces(l[1..]); rest == "" || rest[0] == '&'
  {
    if |l| > 1 { assert l[1..][0] == l[1]; }
  }

  // ---- Entity values ----

  function Replaced(p: Piece): string
  {
    match p case Chars(text) => LineEnds(text) case Number(_, _, n) => Utf8Encode(n) case Named(name) => EntityReference(name)
  }

  /** The replacement text: characters are put in place of their references, references to entities stay. */
  function Replacement(l: seq<Piece>): string { if l == [] then "" else Replaced(l[0]) + Replacement(l[1..]) }

  /** No number is refused. */
  predicate AllChars(l: seq<Piece>) { forall i :: 0 <= i < |l| && l[i].Number? ==> XmlChar(l[i].n) }

  lemma {:induction false} BeforeBefore(a: string, b: string, r: ValueResult)
    ensures Before(a, Before(b, r)) == Before(a + b, r) && Before("", r) == r
  {
    if r.Value? { assert a + (b + r.text) == a + b + r.text && "" + r.text == r.text; }
  }

  /** The front of a run by itself. */
  lemma {:induction false} EntityRunSplit(enc: Encoding, w: string, n: nat)
    requires 0 < n <= |w| && EntityValueTok(enc, w) == Tok(DataChars, EntityValueRun(enc, w, n))
    ensures EntityValue(enc, w) == Before(w[..n], EntityValue(enc, w[n..]))
  {
    hide EntityValueTok; hide CharRefNumber; hide Utf8Encode;
    var m := EntityValueRun(enc, w, n);
    if m > n {
      EntityRunShift(enc, w, n, 0);
      var rest := w[n..];
      EntityRunGoesOn(enc, rest);
      assert rest[m - n..] == w[m..] && w[..n] + rest[..m - n] == w[..m];
      BeforeBefore(w[..n], rest[..m - n], EntityValue(enc, w[m..]));
    }
  }

  lemma {:induction false} EntityRunShift(enc: Encoding, s: string, k: nat, p: nat)
    requires k + p <= |s|
    ensures EntityValueRun(enc, s, k + p) == k + EntityValueRun(enc, s[k..], p)
    decreases |s| - p
  {
    if k + p < |s| {
      assert s[k..][p] == s[k + p];
      var n := LeadLength(enc.byteType(s[k + p]));
      if n == 0 { EntityRunShift(enc, s, k, p + 1); } else if k + p + n <= |s| { EntityRunShift(enc, s, k, p + n); }
    }
  }

  lemma {:induction false} EntityRunGoesOn(enc: Encoding, w: string)
    requires EntityValueRun(enc, w, 0) > 0
    ensures EntityValueTok(enc, w) == Tok(DataChars, EntityValueRun(enc, w, 0))
  {
    hide Scan;
  }

  /** How the first character of text is taken. */
  lemma {:induction false} EntityCharTok(enc: Encoding, s: string, rest: string)
    requires Utf8(enc) && s != "" && LegalText(enc, s) && '&' !in s && '%' !in s && (rest == "" || rest[0] == '&')
    ensures var w := s + rest; var n := LegalChar(enc, s);
            && 0 < n <= |s|
            && (s[0] != '\r' && s[0] != '\n' ==> EntityValueTok(enc, w) == Tok(DataChars, EntityValueRun(enc, w, n)))
            && (s[0] == '\r' && |w| == 1 ==> EntityValueTok(enc, w).TrailingCr?)
            && (s[0] == '\n' || (s[0] == '\r' && |w| > 1) ==> EntityValueTok(enc, w) == Tok(DataNewline, if s[0] == '\r' && |s| > 1 && s[1] == '\n' then 2 else 1))
  {
    hide Scan; hide LegalText;
    var w := s + rest;
    LegalIs(enc, s);
    assert w[0] == s[0];
    if s[0] == '\r' {
      CrIsCr(enc, s);
      if |w| > 1 {
        assert w[1] == if |s| > 1 then s[1] else rest[0];
        LfType(enc, w[1]);
      }
    } else {
      assert enc.byteType(s[0]) == Utf8Type(s[0]) && s[0] != '&' && s[0] != '%';
      if s[0] != '\n' {
        NotMarked(s[0]);
        EntityTurn1(enc, w);
      }
    }
  }

  lemma {:induction false} NotMarked(c: char)
    requires c != '\r' && c != '\n' && c != '&' && c != '%'
    ensures var t := Utf8Type(c); t != AMP && t != PERCNT && t != LF && t != CR
  {
  }

  lemma {:induction false} EntityTurn1(enc: Encoding, w: string)
    requires w != "" && var t := enc.byteType(w[0]); t != AMP && t != PERCNT && t != LF && t != CR
    ensures var n := LeadLength(enc.byteType(w[0]));
            && EntityValueTok(enc, w) == Tok(DataChars, EntityValueRun(enc, w, 0))
            && (n == 0 ==> EntityValueRun(enc, w, 0) == EntityValueRun(enc, w, 1))
            && (0 < n <= |w| ==> EntityValueRun(enc, w, 0) == EntityValueRun(enc, w, n))
  {
    hide Scan;
  }

  lemma {:induction false} LegalIs(enc: Encoding, s: string)
    requires s != "" && LegalText(enc, s)
    ensures LegalChar(enc, s) > 0 && LegalText(enc, s[LegalChar(enc, s)..])
  {
  }

  lemma {:induction false} LfType(enc: Encoding, c: char)
    requires Utf8(enc)
    ensures enc.byteType(c) == LF <==> c == '\n'
  {
    if c != '\r' { assert enc.byteType(c) == Utf8Type(c); }
  }

  lemma {:induction false} NewlineTurn(enc: Encoding, w: string, n: nat)
    requires n <= |w| && (EntityValueTok(enc, w) == Tok(DataNewline, n) || (EntityValueTok(enc, w).TrailingCr? && n == 1))
    ensures EntityValue(enc, w) == Before("\n", EntityValue(enc, w[n..]))
  {
    hide EntityValueTok; hide CharRefNumber; hide Utf8Encode;
  }

  /** Text in a literal, in front of a reference or the end. */
  lemma {:induction false} CharsValue(enc: Encoding, s: string, rest: string)
    requires Utf8(enc) && LegalText(enc, s) && '&' !in s && '%' !in s && (rest == "" || rest[0] == '&')
    ensures EntityValue(enc, s + rest) == Before(LineEnds(s), EntityValue(enc, rest))
    decreases |s|
  {
    hide *;
    BeforeBefore("", "", EntityValue(enc, rest));
    if s == "" {
      assert s + rest == rest;
      NoLineEnds();
    } else {
      var n, out := CharsFirst(enc, s, rest);
      CharsValue(enc, s[n..], rest);
      BeforeBefore(out, LineEnds(s[n..]), EntityValue(enc, rest));
    }
  }

  /** `n` bytes of the text, and what is stored for them. */
  lemma {:induction false} CharsFirst(enc: Encoding, s: string, rest: string) returns (n: nat, out: string)
    requires Utf8(enc) && s != "" && LegalText(enc, s) && '&' !in s && '%' !in s && (rest == "" || rest[0] == '&')
    ensures 0 < n <= |s| && LegalText(enc, s[n..]) && LineEnds(s) == out + LineEnds(s[n..])
    ensures EntityValue(enc, s + rest) == Before(out, EntityValue(enc, s[n..] + rest))
  {
    hide *;
    var w := s + rest;
    EntityCharTok(enc, s, rest);
    LegalIs(enc, s);
    if s[0] == '\r' || s[0] == '\n' {
      n, out := if s[0] == '\r' && |s| > 1 && s[1] == '\n' then 2 else 1, "\n";
      LineHead(enc, s);
      NewlineTurn(enc, w, n);
    } else {
      n := LegalChar(enc, s);
      out := s[..n];
      assert w[..n] == out;
      EntityRunSplit(enc, w, n);
      LegalCharAlone(enc, s);
      NoCrInside(enc, out);
      LineEndsBehind(out, s[n..]);
      assert out + s[n..] == s;
    }
    assert w[n..] == s[n..] + rest;
  }

  lemma {:induction false} NoLineEnds()
    ensures LineEnds("") == ""
  {
  }

  lemma {:induction false} LineHead(enc: Encoding, s: string)
    requires Utf8(enc) && s != "" && LegalText(enc, s) && (s[0] == '\r' || s[0] == '\n')
    ensures var k := if s[0] == '\r' && |s| > 1 && s[1] == '\n' then 2 else 1;
            LineEnds(s) == "\n" + LineEnds(s[k..]) && LegalText(enc, s[k..])
  {
    hide LegalText; hide Utf8;
    if s[0] == '\r' { CrIsCr(enc, s); }
    BlankLegal(enc, s);
  }

  lemma {:induction false} NumberValue(enc: Encoding, hex: bool, digits: string, n: nat, rest: string)
    requires Utf8(enc) && digits != "" && Spells(Base(hex), digits, n)
    ensures EntityValue(enc, Reference(hex, digits) + rest) == if XmlChar(n) then Before(Utf8Encode(n), EntityValue(enc, rest)) else ValueError(BadCharRef)
  {
    hide Utf8; hide Spells; hide Scan; hide Reference; hide CharRefNumber; hide Utf8Encode; hide IsDigit; hide XmlChar; hide EntityValueRun;
    var ref := Reference(hex, digits);
    var w := ref + rest;
    SpelledDigits(hex, digits, n);
    NumberTok(enc, hex, digits, rest);
    NumberRead(hex, digits, n);
    assert EntityValueTok(enc, w) == Tok(CharRef, |ref|);
    assert w[..|ref|] == ref && w[|ref|..] == rest;
    if XmlChar(n) { NumberPut(true, "", n); }
  }

  lemma {:induction false} NamedValue(enc: Encoding, name: string, rest: string)
    requires Utf8(enc) && LegalName(enc, name)
    ensures EntityValue(enc, EntityReference(name) + rest) == Before(EntityReference(name), EntityValue(enc, rest))
  {
    hide Utf8; hide LegalName; hide Scan; hide EntityReference; hide EntityValueRun; hide CharRefNumber; hide Utf8Encode;
    var ref := EntityReference(name);
    var w := ref + rest;
    NameTok(enc, name, rest);
    assert EntityValueTok(enc, w) == Tok(EntityRef, |ref|);
    assert w[..|ref|] == ref && w[|ref|..] == rest;
  }

  /** The value of an entity, for any literal. */
  lemma {:induction false} EntityLiteral(enc: Encoding, l: seq<Piece>)
    requires Utf8(enc) && LegalPieces(enc, l, '%')
    ensures EntityValue(enc, PrintPieces(l)) == if AllChars(l) then Value(Replacement(l)) else ValueError(BadCharRef)
    decreases |l|
  {
    hide Utf8; hide EntityValue; hide LegalText; hide LegalName; hide Spells; hide LineEnds; hide Utf8Encode; hide Reference; hide EntityReference; hide XmlChar;
    if l == [] {
      NoValue(enc);
    } else {
      var rest := PrintPieces(l[1..]);
      EntityLiteral(enc, l[1..]);
      FirstChar(l);
      match l[0]
      case Chars(text) =>
        BehindChars(enc, l, '%');
        CharsValue(enc, text, rest);
      case Number(hex, digits, n) => NumberValue(enc, hex, digits, n, rest);
      case Named(name) => NamedValue(enc, name, rest);
    }
  }

  lemma {:induction false} FirstChar(l: seq<Piece>)
    requires l != []
    ensures AllChars(l) <==> (l[0].Number? ==> XmlChar(l[0].n)) && AllChars(l[1..])
  {
    hide XmlChar;
    if (l[0].Number? ==> XmlChar(l[0].n)) && AllChars(l[1..]) {
      forall i | 0 <= i < |l| && l[i].Number? ensures XmlChar(l[i].n) { if i > 0 { assert l[1..][i - 1] == l[i]; } }
    }
    if AllChars(l) {
      forall i | 0 <= i < |l[1..]| && l[1..][i].Number? ensures XmlChar(l[1..][i].n) { assert l[1..][i] == l[i + 1]; }
    }
  }

  lemma {:induction false} NoValue(enc: Encoding)
    ensures EntityValue(enc, "") == Value("")
  {
    hide Scan;
  }

  // ---- Attribute values ----

  /** Text in a value, in front of a reference or the end. */
  lemma {:induction false} CharsAppended(internal: Encoding, dtd: Dtd, open: set<string>, enc: Encoding, isCdata: bool, s: string, rest: string, pool: string)
    requires Utf8(enc) && LegalText(enc, s) && '&' !in s && '<' !in s && (rest == "" || rest[0] == '&')
    ensures AppendValue(internal, dtd, open, enc, isCdata, s + rest, pool) == AppendValue(internal, dtd, open, enc, isCdata, rest, Put(isCdata, pool, Blanks(s)))
    decreases |s|
  {
    hide *;
    if s == "" {
      assert s + rest == rest;
      NoBlanks();
      PutConcat(isCdata, pool, "", "");
    } else {
      LegalIs(enc, s);
      var n := LegalChar(enc, s);
      if Blank(s[0]) {
        LegalBlank(enc, s);
        BlankHead(enc, s);
        var k := if s[0] == '\r' && |s| > 1 && s[1] == '\n' then 2 else 1;
        assert s + rest == [s[0]] + (s[1..] + rest);
        AppendBlank(internal, dtd, open, enc, isCdata, s[0], s[1..] + rest, pool);
        BlankRest(s, rest);
        CharsAppended(internal, dtd, open, enc, isCdata, s[k..], rest, AppendSpace(isCdata, pool));
        PutSpace(isCdata, pool);
        PutConcat(isCdata, pool, " ", Blanks(s[k..]));
      } else {
        assert s + rest == s[..n] + (s[n..] + rest);
        LegalCharAlone(enc, s);
        AppendOrdinary(internal, dtd, open, enc, isCdata, s[..n], s[n..] + rest, pool);
        CharsAppended(internal, dtd, open, enc, isCdata, s[n..], rest, pool + s[..n]);
        NoBlankInside(enc, s[..n]);
        BlanksBehind(s[..n], s[n..]);
        assert s[..n] + s[n..] == s;
        NoSpaceInside(s[..n]);
        PutSolid(isCdata, pool, s[..n]);
        PutConcat(isCdata, pool, s[..n], Blanks(s[n..]));
      }
    }
  }

  lemma {:induction false} NoSpaceInside(c: string)
    requires forall i :: 0 <= i < |c| ==> !Blank(c[i])
    ensures ' ' !in c
  {
  }

  lemma {:induction false} BlankHead(enc: Encoding, s: string)
    requires Utf8(enc) && s != "" && LegalText(enc, s) && Blank(s[0])
    ensures var k := if s[0] == '\r' && |s| > 1 && s[1] == '\n' then 2 else 1;
            LegalText(enc, s[k..]) && Blanks(s) == " " + Blanks(s[k..])
  {
    hide Utf8; hide LegalText;
    LegalIs(enc, s);
    LegalBlank(enc, s);
    BlankLegal(enc, s);
  }

  lemma {:induction false} BlankRest(s: string, rest: string)
    requires s != "" && (rest == "" || rest[0] == '&')
    ensures var u := s[1..] + rest; var k := if s[0] == '\r' && |s| > 1 && s[1] == '\n' then 2 else 1;
            (if s[0] == '\r' && u != "" && u[0] == '\n' then u[1..] else u) == s[k..] + rest
  {
    var u := s[1..] + rest;
    if |s| > 1 { assert u[0] == s[1] && u[1..] == s[2..] + rest; } else { assert u == rest; }
  }

  function Putting(isCdata: bool, pool: string, r: ValueResult): ValueResult
  {
    match r case ValueError(_) => r case Value(text) => Value(Put(isCdata, pool, text))
  }

  /** What a name stands for in a value: one of the five, the value of the entity's text by itself, nothing, or an error. */
  function NameMeans(internal: Encoding, dtd: Dtd, open: set<string>, name: string): ValueResult
  {
    if name in FIVE then Value([FIVE[name]])
    else if name !in dtd.entities then (if dtd.complete then ValueError(UndefinedEntity) else Value(""))
    else if name in open then ValueError(RecursiveEntityRef)
    else match dtd.entities[name]
      case Unparsed => ValueError(BinaryEntityRef)
      case External => ValueError(AttributeExternalEntityRef)
      case Internal(text) => AppendValue(internal, dtd, open + {name}, internal, true, text, "")
  }

  /** No character of the entities is made of several bytes with a space among them. */
  predicate Whole(internal: Encoding, dtd: Dtd) { SolidEntities(internal, dtd) }

  lemma {:induction false} NamedTurn(internal: Encoding, dtd: Dtd, open: set<string>, enc: Encoding, isCdata: bool, name: string, rest: string, pool: string)
    requires Utf8(enc) && LegalName(enc, name)
    ensures AppendValue(internal, dtd, open, enc, isCdata, EntityReference(name) + rest, pool) ==
            if name in FIVE then AppendValue(internal, dtd, open, enc, isCdata, rest, pool + [FIVE[name]])
            else match ExpandEntity(internal, dtd, open, isCdata, name, pool)
              case ValueError(code) => ValueError(code)
              case Value(pool') => AppendValue(internal, dtd, open, enc, isCdata, rest, pool')
  {
    hide Utf8; hide LegalName; hide Scan; hide EntityReference; hide ExpandEntity; hide ValueRun; hide FIVE; hide PredefinedEntityName; hide Inner;
    var ref := EntityReference(name);
    var w := ref + rest;
    NameTok(enc, name, rest);
    FiveAre(name);
    assert AttributeValueTok(enc, w) == Tok(EntityRef, |ref|);
    assert w[..|ref|] == ref && w[|ref|..] == rest;
  }

  /** A reference in a value: what the name stands for is put into the pool. */
  lemma {:induction false} NamedAppended(internal: Encoding, dtd: Dtd, open: set<string>, enc: Encoding, isCdata: bool, name: string, rest: string, pool: string)
    requires Utf8(enc) && LegalName(enc, name) && (isCdata || Whole(internal, dtd))
    ensures AppendValue(internal, dtd, open, enc, isCdata, EntityReference(name) + rest, pool) ==
            match NameMeans(internal, dtd, open, name)
            case ValueError(code) => ValueError(code)
            case Value(text) => AppendValue(internal, dtd, open, enc, isCdata, rest, Put(isCdata, pool, text))
  {
    hide Utf8; hide LegalName; hide AppendValue; hide ExpandEntity; hide EntityReference; hide FIVE; hide Put; hide AllSolid;
    NamedTurn(internal, dtd, open, enc, isCdata, name, rest, pool);
    PutConcat(isCdata, pool, "", "");
    if name in FIVE {
      FiveSolid(name);
      PutSolid(isCdata, pool, [FIVE[name]]);
    } else {
      EntityTurn(internal, dtd, open, isCdata, name, pool);
      if name in dtd.entities && name !in open && dtd.entities[name].Internal? {
        OwnAppended(internal, dtd, open + {name}, isCdata, dtd.entities[name].text, pool);
      }
    }
  }

  lemma {:induction false} FiveSolid(name: string)
    requires name in FIVE
    ensures ' ' !in [FIVE[name]]
  {
  }

  lemma {:induction false} OwnAppended(internal: Encoding, dtd: Dtd, open: set<string>, isCdata: bool, text: string, pool: string)
    requires isCdata || (AllSolid(internal, text) && SolidEntities(internal, dtd))
    ensures AppendValue(internal, dtd, open, internal, isCdata, text, pool) == Putting(isCdata, pool, AppendValue(internal, dtd, open, internal, true, text, ""))
  {
    hide AppendValue; hide AllSolid; hide SolidEntities;
    if isCdata { PoolInFront(internal, dtd, open, internal, text, pool); } else { Tokenized(internal, dtd, open, internal, text, pool); }
  }

  /** The value of a literal for the type CDATA, piece by piece, up to the first error. */
  function Meaning(internal: Encoding, dtd: Dtd, open: set<string>, l: seq<Piece>): ValueResult
  {
    if l == [] then Value("")
    else
      var first := match l[0]
        case Chars(text) => Value(Blanks(text))
        case Number(_, _, n) => if XmlChar(n) then Value(Utf8Encode(n)) else ValueError(BadCharRef)
        case Named(name) => NameMeans(internal, dtd, open, name);
      match first case ValueError(_) => first case Value(text) => Before(text, Meaning(internal, dtd, open, l[1..]))
  }

  lemma {:induction false} PuttingBefore(isCdata: bool, pool: string, a: string, r: ValueResult)
    ensures Putting(isCdata, Put(isCdata, pool, a), r) == Putting(isCdata, pool, Before(a, r))
  {
    if r.Value? { PutConcat(isCdata, pool, a, r.text); }
  }

  /** appendAttributeValue on any literal. */
  lemma {:induction false} LiteralAppended(internal: Encoding, dtd: Dtd, open: set<string>, enc: Encoding, isCdata: bool, l: seq<Piece>, pool: string)
    requires Utf8(enc) && LegalPieces(enc, l, '<') && (isCdata || Whole(internal, dtd))
    ensures AppendValue(internal, dtd, open, enc, isCdata, PrintPieces(l), pool) == Putting(isCdata, pool, Meaning(internal, dtd, open, l))
    decreases |l|
  {
    hide Utf8; hide AppendValue; hide LegalText; hide LegalName; hide Spells; hide Blanks; hide Utf8Encode; hide Reference; hide EntityReference; hide XmlChar;
    hide NameMeans; hide Put; hide Before; hide Whole;
    if l == [] {
      AppendNothing(internal, dtd, open, enc, isCdata, pool);
      PutConcat(isCdata, pool, "", "");
    } else {
      var rest, more := PrintPieces(l[1..]), Meaning(internal, dtd, open, l[1..]);
      match l[0]
      case Chars(text) =>
        BehindChars(enc, l, '<');
        CharsAppended(internal, dtd, open, enc, isCdata, text, rest, pool);
        LiteralAppended(internal, dtd, open, enc, isCdata, l[1..], Put(isCdata, pool, Blanks(text)));
        PuttingBefore(isCdata, pool, Blanks(text), more);
      case Number(hex, digits, n) =>
        NumberAppended(internal, dtd, open, enc, isCdata, hex, digits, n, rest, pool);
        LiteralAppended(internal, dtd, open, enc, isCdata, l[1..], Put(isCdata, pool, Utf8Encode(n)));
        PuttingBefore(isCdata, pool, Utf8Encode(n), more);
      case Named(name) =>
        NamedAppended(internal, dtd, open, enc, isCdata, name, rest, pool);
        var m := NameMeans(internal, dtd, open, name);
        if m.Value? {
          LiteralAppended(internal, dtd, open, enc, isCdata, l[1..], Put(isCdata, pool, m.text));
          PuttingBefore(isCdata, pool, m.text, more);
        }
    }
  }

  /** storeAttributeValue on any literal: its value for CDATA, and its words for any other type. */
  lemma {:induction false} LiteralStored(internal: Encoding, dtd: Dtd, open: set<string>, enc: Encoding, isCdata: bool, l: seq<Piece>)
    requires Utf8(enc) && LegalPieces(enc, l, '<') && (isCdata || Whole(internal, dtd))
    ensures StoreValue(internal, dtd, open, enc, isCdata, PrintPieces(l)) ==
            match Meaning(internal, dtd, open, l)
            case ValueError(code) => ValueError(code)
            case Value(text) => Value(Typed(isCdata, text))
  {
    hide Utf8; hide AppendValue; hide LegalPieces; hide Whole; hide Meaning; hide Typed; hide Put;
    LiteralAppended(internal, dtd, open, enc, isCdata, l, "");
    var m := Meaning(internal, dtd, open, l);
    if m.Value? { PutTyped(isCdata, m.text); }
  }

  /** In a value, an entity stands for what its own text means, references in it included. */
  lemma {:induction false} TextMeans(internal: Encoding, dtd: Dtd, open: set<string>, name: string, l: seq<Piece>)
    requires Utf8(internal) && LegalPieces(internal, l, '<') && name !in FIVE && name in dtd.entities && name !in open && dtd.entities[name] == Internal(PrintPieces(l))
    ensures NameMeans(internal, dtd, open, name) == Meaning(internal, dtd, open + {name}, l)
  {
    hide AppendValue; hide LegalPieces; hide Utf8; hide Meaning; hide FIVE; hide PrintPieces;
    LiteralAppended(internal, dtd, open + {name}, internal, true, l, "");
    var m := Meaning(internal, dtd, open + {name}, l);
    if m.Value? { assert "" + m.text == m.text; }
  }

  /** An entity without markup stands for its text in a value, with its white space as spaces. */
  lemma {:induction false} PlainMeans(internal: Encoding, dtd: Dtd, open: set<string>, name: string, text: string)
    requires Utf8(internal) && LegalText(internal, text) && '&' !in text && '<' !in text
    requires name !in FIVE && name in dtd.entities && name !in open && dtd.entities[name] == Internal(text)
    ensures NameMeans(internal, dtd, open, name) == Value(Blanks(text))
  {
    hide AppendValue; hide LegalText; hide Utf8; hide Blanks; hide FIVE;
    CharsAppended(internal, dtd, open + {name}, internal, true, text, "", "");
    AppendNothing(internal, dtd, open + {name}, internal, true, "" + Blanks(text));
    assert text + "" == text && "" + Blanks(text) == Blanks(text);
  }
}
