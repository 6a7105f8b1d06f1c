/**
 Attribute values and references: attributeValueTok, charRefNumber and
 predefinedEntityName of libjabber/xmltok_impl_c.h, XmlUtf8Encode of
 libjabber/xmltok.c, and storeAtts, storeAttributeValue and
 appendAttributeValue of libjabber/xmlparse.c with namespace processing off.
 */
module XmlValue {
  import opened XmlScan
  import opened XmlTok
  import opened XmlAtts

  datatype Error =
    | Syntax | NoElements | InvalidToken | UnclosedToken | PartialCharacter | TagMismatch
    | DuplicateAttribute | JunkAfterDocElement | ParamEntityReference | UndefinedEntity
    | RecursiveEntityRef | AsyncEntity | BadCharRef | BinaryEntityRef | AttributeExternalEntityRef
    | MisplacedXmlPi | UnknownEncoding | IncorrectEncoding | UnclosedCdataSection | NotStandalone
    | Aborted

  datatype Entity = Internal(text: string) | External | Unparsed

  datatype DefaultAtt = DefaultAtt(name: string, isCdata: bool, value: string, hasValue: bool)

  datatype Dtd = Dtd(entities: map<string, Entity>, elementAtts: map<string, seq<DefaultAtt>>, complete: bool, standalone: bool)

  // ---- References ----

  /** XmlUtf8Encode: no bytes for a number that is no character. */
  function Utf8Encode(c: int): string
  {
    if c < 0 then []
    else if c < 0x80 then [c as char]
    else if c < 0x800 then [(0xC0 + c / 0x40) as char, (0x80 + c % 0x40) as char]
    else if c < 0x10000 then [(0xE0 + c / 0x1000) as char, (0x80 + c / 0x40 % 0x40) as char, (0x80 + c % 0x40) as char]
    else if c < 0x110000 then
      [(0xF0 + c / 0x40000) as char, (0x80 + c / 0x1000 % 0x40) as char, (0x80 + c / 0x40 % 0x40) as char, (0x80 + c % 0x40) as char]
    else []
  }

  /** checkCharRefNumber: surrogates, controls other than tab, LF and CR, and FFFE/FFFF are refused with -1. */
  function CheckCharRefNumber(n: int): int
  {
    if 0xD800 <= n <= 0xDFFF || (0 <= n < 0x20 && n != 9 && n != 0xA && n != 0xD) || n == 0xFFFE || n == 0xFFFF then -1 else n
  }

  function HexDigit(c: char): int
  {
    if '0' <= c <= '9' then c as int - '0' as int
    else if 'A' <= c <= 'F' then 10 + (c as int - 'A' as int)
    else if 'a' <= c <= 'f' then 10 + (c as int - 'a' as int)
    else -1
  }

  function HexNumber(s: string, p: nat, n: int): int
    decreases |s| - p
  {
    if p >= |s| || s[p] == ';' then CheckCharRefNumber(n)
    else
      var n' := if HexDigit(s[p]) < 0 then n else 16 * n + HexDigit(s[p]);
      if n' >= 0x110000 then -1 else HexNumber(s, p + 1, n')
  }

  function DecNumber(s: string, p: nat, n: int): int
    decreases |s| - p
  {
    if p >= |s| || s[p] == ';' then CheckCharRefNumber(n)
    else
      var n' := 10 * n + (s[p] as int - '0' as int);
      if n' >= 0x110000 then -1 else DecNumber(s, p + 1, n')
  }

  /** The number of a character reference, "&#" to ";", or -1. */
  function CharRefNumber(ref: string): int
  {
    if |ref| > 2 && ref[2] == 'x' then HexNumber(ref, 3, 0) else DecNumber(ref, 2, 0)
  }

  datatype Option<T> = None | Some(value: T)

  function PredefinedEntityName(name: string): Option<char>
  {
    if name == "lt" then Some('<')
    else if name == "gt" then Some('>')
    else if name == "amp" then Some('&')
    else if name == "quot" then Some('\"')
    else if name == "apos" then Some('\'')
    else None
  }

  /** The bytes strictly inside a reference or literal. */
  function Inner(tok: string): string
  {
    if |tok| < 2 then "" else tok[1..|tok| - 1]
  }

  // ---- Values ----

  /** A run inside a value; "<" is not allowed even behind other characters. */
  function ValueRun(enc: Encoding, s: string, p: nat): (v: Verdict)
    requires p <= |s|
    ensures v.Final()
    ensures v.Tok? ==> v.tok == DataChars && p <= v.next <= |s|
    decreases |s| - p
  {
    if p == |s| then Tok(DataChars, p)
    else
      var t := enc.byteType(s[p]);
      match t
      case LEAD2 | LEAD3 | LEAD4 => if |s| - p < LeadLength(t) then Tok(DataChars, |s|) else ValueRun(enc, s, p + LeadLength(t))
      case LT => Invalid(p)
      case AMP | LF | CR | S => Tok(DataChars, p)
      case _ => ValueRun(enc, s, p + 1)
  }

  function AttributeValueTok(enc: Encoding, w: string): (v: Verdict)
    ensures v.Tok? ==> 1 <= v.next <= |w|
    ensures v.NoBytes? <==> w == ""
    ensures v.TrailingCr? ==> |w| == 1
  {
    if w == "" then NoBytes
    else
      match enc.byteType(w[0])
      case AMP => Scan(enc, RefOpen(InContent), w, 1)
      case LT => Invalid(0)
      case LF => Tok(DataNewline, 1)
      case CR => if |w| == 1 then TrailingCr else Tok(DataNewline, if enc.byteType(w[1]) == LF then 2 else 1)
      case S => Tok(AttributeValueS, 1)
      case _ => ValueRun(enc, w, 0)
  }

  datatype ValueResult = Value(text: string) | ValueError(code: Error)

  predicate EndsInSpace(pool: string) { pool == "" || pool[|pool| - 1] == ' ' }

  function AppendSpace(isCdata: bool, pool: string): string
  {
    if !isCdata && EndsInSpace(pool) then pool else pool + " "
  }

  /** A reference to a declared entity: its text is appended while the entity is marked open. */
  function ExpandEntity(internal: Encoding, dtd: Dtd, open: set<string>, isCdata: bool, name: string, pool: string): ValueResult
    decreases |dtd.entities.Keys - open|, 0
  {
    if name !in dtd.entities then
      if dtd.complete then ValueError(UndefinedEntity) else Value(pool)
    else if name in open then ValueError(RecursiveEntityRef)
    else
      match dtd.entities[name]
      case Unparsed => ValueError(BinaryEntityRef)
      case External => ValueError(AttributeExternalEntityRef)
      case Internal(text) =>
        OpenSmaller(dtd.entities.Keys, open, name);
        AppendValue(internal, dtd, open + {name}, internal, isCdata, text, pool)
  }

  /** Fewer entities are left to open. */
  lemma {:induction false} OpenSmaller(all: set<string>, open: set<string>, name: string)
    requires name in all && name !in open
    ensures |all - (open + {name})| < |all - open|
  {
    assert all - open == (all - (open + {name})) + {name};
  }

  /** appendAttributeValue: `pool` is the string under construction, `open` the entities being expanded. */
  function AppendValue(internal: Encoding, dtd: Dtd, open: set<string>, enc: Encoding, isCdata: bool, w: string, pool: string): ValueResult
    decreases |dtd.entities.Keys - open|, |w| + 1
  {
    match AttributeValueTok(enc, w)
    case NoBytes => Value(pool)
    case Invalid(_) => ValueError(InvalidToken)
    case Partial => ValueError(InvalidToken)
    case TrailingCr => AppendValue(internal, dtd, open, enc, isCdata, w[1..], AppendSpace(isCdata, pool))
    case Tok(tok, next) =>
      if tok == DataChars then AppendValue(internal, dtd, open, enc, isCdata, w[next..], pool + w[..next])
      else if tok == AttributeValueS || tok == DataNewline then
        AppendValue(internal, dtd, open, enc, isCdata, w[next..], AppendSpace(isCdata, pool))
      else if tok == CharRef then
        var n := CharRefNumber(w[..next]);
        if n < 0 || Utf8Encode(n) == "" then ValueError(BadCharRef)
        else
          var pool' := if !isCdata && n == 0x20 && EndsInSpace(pool) then pool else pool + Utf8Encode(n);
          AppendValue(internal, dtd, open, enc, isCdata, w[next..], pool')
      else if tok == EntityRef then
        var name := Inner(w[..next]);
        if PredefinedEntityName(name).Some? then
          AppendValue(internal, dtd, open, enc, isCdata, w[next..], pool + [PredefinedEntityName(name).value])
        else
          (match ExpandEntity(internal, dtd, open, isCdata, name, pool)
           case ValueError(code) => ValueError(code)
           case Value(pool') => AppendValue(internal, dtd, open, enc, isCdata, w[next..], pool'))
      else ValueError(Aborted)
    case _ => ValueError(Aborted)
  }

  /** storeAttributeValue: a tokenized value also loses one trailing space. */
  function StoreValue(internal: Encoding, dtd: Dtd, open: set<string>, enc: Encoding, isCdata: bool, w: string): ValueResult
  {
    match AppendValue(internal, dtd, open, enc, isCdata, w, "")
    case ValueError(code) => ValueError(code)
    case Value(text) => if !isCdata && text != "" && EndsInSpace(text) then Value(text[..|text| - 1]) else Value(text)
  }

  // ---- storeAtts ----

  function NameEnd(enc: Encoding, s: string, p: nat): (e: nat)
    requires p <= |s|
    ensures p <= e <= |s|
    decreases |s| - p
  {
    if p == |s| then p
    else
      var t := enc.byteType(s[p]);
      match t
      case LEAD2 | LEAD3 | LEAD4 => if |s| - p < LeadLength(t) then |s| else NameEnd(enc, s, p + LeadLength(t))
      case NONASCII | NMSTRT | HEX | DIGIT | NAME | MINUS => NameEnd(enc, s, p + 1)
      case _ => p
  }

  /** The name at position `p`. */
  function NameAt(enc: Encoding, s: string, p: nat): string
  {
    if p <= |s| then s[p..NameEnd(enc, s, p)] else ""
  }

  function Slice(s: string, from: nat, to: nat): string
  {
    if from <= to <= |s| then s[from..to] else ""
  }

  function Defaults(dtd: Dtd, element: string): seq<DefaultAtt>
  {
    if element in dtd.elementAtts then dtd.elementAtts[element] else []
  }

  /** Whether the first declaration of the attribute, if any, gives it the CDATA type. */
  predicate IsCdata(defaults: seq<DefaultAtt>, name: string)
  {
    defaults == [] || (if defaults[0].name == name then defaults[0].isCdata else IsCdata(defaults[1..], name))
  }

  datatype AttsOutcome = Stored(atts: seq<(string, string)>) | AttsError(code: Error)

  /** The specified attributes, in order: duplicates are refused, values not marked normalized are normalized. */
  function StoreEach(internal: Encoding, dtd: Dtd, open: set<string>, enc: Encoding, tag: string, defaults: seq<DefaultAtt>,
                     list: seq<Attribute>, atts: seq<(string, string)>): AttsOutcome
    decreases |list|
  {
    if list == [] then Stored(atts)
    else
      var name := NameAt(enc, tag, list[0].name);
      var raw := Slice(tag, list[0].valuePtr, list[0].valueEnd);
      if Has(atts, name) then AttsError(DuplicateAttribute)
      else
        var v := if list[0].normalized then Value(raw) else StoreValue(internal, dtd, open, enc, IsCdata(defaults, name), raw);
        match v
        case ValueError(code) => AttsError(code)
        case Value(text) => StoreEach(internal, dtd, open, enc, tag, defaults, list[1..], atts + [(name, text)])
  }

  predicate Has(atts: seq<(string, string)>, name: string)
  {
    exists i :: 0 <= i < |atts| && atts[i].0 == name
  }

  /** Declared values of attributes that were not specified follow. */
  function AddDefaults(defaults: seq<DefaultAtt>, atts: seq<(string, string)>): seq<(string, string)>
    decreases |defaults|
  {
    if defaults == [] then atts
    else
      var d := defaults[0];
      AddDefaults(defaults[1..], if !Has(atts, d.name) && d.hasValue then atts + [(d.name, d.value)] else atts)
  }

  /** storeAtts on a whole tag, "<" to ">". */
  function StoreAtts(internal: Encoding, dtd: Dtd, open: set<string>, enc: Encoding, tag: string, element: string): AttsOutcome
  {
    var defaults := Defaults(dtd, element);
    match GetAtts(enc, tag, 1, GETTER_START)
    case Overrun => AttsError(Aborted)
    case Atts(list) =>
      match StoreEach(internal, dtd, open, enc, tag, defaults, list, [])
      case AttsError(code) => AttsError(code)
      case Stored(atts) => Stored(AddDefaults(defaults, atts))
  }
}
