/**
  JSON values, their compact and indented texts, and the functions the parser
  computes on the text still ahead. An object is its entries in key order.
 */
module Json {
  import opened Wrappers

  datatype Value =
    | Null
    | Bool(flag: bool)
    | Number(digits: string)
    | String(text: string)
    | Array(values: seq<Value>)
    | Object(entries: seq<Member>)

  datatype Member = Member(key: string, value: Value)

  const MAX_DEPTH: nat := 64

  // ----- Which values survive

  function Less(a: string, b: string): bool {
    if b == [] then false
    else if a == [] then true
    else a[0] < b[0] || (a[0] == b[0] && Less(a[1..], b[1..]))
  }

  /** Keys strictly ascend, as in an ordered map. */
  ghost predicate Ordered(entries: seq<Member>) {
    forall i, j | 0 <= i < j < |entries| :: Less(entries[i].key, entries[j].key)
  }

  predicate IsDigit(c: char) { '0' <= c <= '9' }

  ghost predicate AllDigits(s: string) { forall k | 0 <= k < |s| :: IsDigit(s[k]) }

  ghost predicate IsWhole(s: string) { s == "0" || (s != [] && s[0] != '0' && AllDigits(s)) }

  ghost predicate IsFraction(s: string) { s == [] || (|s| > 1 && s[0] == '.' && AllDigits(s[1..])) }

  ghost predicate IsExponent(s: string) {
    s == [] || (&& |s| > 1 && (s[0] == 'e' || s[0] == 'E')
                && (AllDigits(s[1..]) || (|s| > 2 && (s[1] == '+' || s[1] == '-') && AllDigits(s[2..]))))
  }

  /** The number grammar of section 6 of RFC 8259. */
  ghost predicate IsNumber(text: string) {
    exists sign, whole, fraction, exponent ::
      NumberParts(text, sign, whole, fraction, exponent)
  }

  ghost predicate NumberParts(text: string, sign: string, whole: string, fraction: string, exponent: string) {
    && text == sign + (whole + (fraction + exponent))
    && (sign == [] || sign == "-") && IsWhole(whole) && IsFraction(fraction) && IsExponent(exponent)
  }

  ghost predicate WellFormed(value: Value) {
    match value
    case Number(digits) => IsNumber(digits)
    case Array(values) => forall k | 0 <= k < |values| :: WellFormed(values[k])
    case Object(entries) => Ordered(entries) && forall k | 0 <= k < |entries| :: WellFormed(entries[k].value)
    case _ => true
  }

  /** Nothing in the value is nested deeper than `limit` containers. */
  ghost predicate Within(value: Value, limit: int) {
    && limit >= 0
    && match value
       case Array(values) => forall k | 0 <= k < |values| :: Within(values[k], limit - 1)
       case Object(entries) => forall k | 0 <= k < |entries| :: Within(entries[k].value, limit - 1)
       case _ => true
  }

  // ----- Printing

  function HexDigit(n: nat): char
    requires n < 16
  {
    if n < 10 then '0' + n as char else 'a' + (n - 10) as char
  }

  function Escaped(c: char): string {
    match c
    case '"' => "\\\""
    case '\\' => "\\\\"
    case '\n' => "\\n"
    case '\r' => "\\r"
    case '\t' => "\\t"
    case c =>
      if c as int <= 0x1f then ['\\', 'u', '0', '0', HexDigit(c as int / 16), HexDigit(c as int % 16)] else [c]
  }

  function EscapedAll(text: string): string {
    if text == [] then [] else Escaped(text[0]) + EscapedAll(text[1..])
  }

  function Quoted(text: string): string { ['"'] + EscapedAll(text) + ['"'] }

  function Spaces(n: nat): string { seq(n, _ => ' ') }

  /** What separates the parts of a container: nothing, or a fresh indented line. */
  function Gap(pretty: bool, depth: nat): string { if pretty then ['\n'] + Spaces(2 * depth) else [] }

  function Colon(pretty: bool): string { if pretty then ": " else ":" }

  function Print(pretty: bool, value: Value, depth: nat): string
    decreases value, 1
  {
    match value
    case Null => "null"
    case Bool(flag) => if flag then "true" else "false"
    case Number(digits) => digits
    case String(text) => Quoted(text)
    case Array(values) =>
      if values == [] then "[]"
      else ['['] + Gap(pretty, depth + 1) + PrintItems(pretty, values, depth + 1) + Gap(pretty, depth) + [']']
    case Object(entries) =>
      if entries == [] then "{}"
      else ['{'] + Gap(pretty, depth + 1) + PrintMembers(pretty, entries, depth + 1) + Gap(pretty, depth) + ['}']
  }

  function PrintItems(pretty: bool, values: seq<Value>, depth: nat): string
    requires values != []
    decreases values, 0
  {
    Print(pretty, values[0], depth)
    + if |values| == 1 then [] else [','] + Gap(pretty, depth) + PrintItems(pretty, values[1..], depth)
  }

  function PrintMember(pretty: bool, member: Member, depth: nat): string
    decreases member, 2
  {
    Quoted(member.key) + Colon(pretty) + Print(pretty, member.value, depth)
  }

  function PrintMembers(pretty: bool, entries: seq<Member>, depth: nat): string
    requires entries != []
    decreases entries, 0
  {
    PrintMember(pretty, entries[0], depth)
    + if |entries| == 1 then [] else [','] + Gap(pretty, depth) + PrintMembers(pretty, entries[1..], depth)
  }

  function Encode(value: Value): string { Print(false, value, 0) }

  function Pretty(value: Value): string { Print(true, value, 0) }

  // ----- Parsing: each function takes the text ahead and returns what is left

  type Parsed<+T> = Result<(T, string)>

  predicate IsSpace(c: char) { c == ' ' || c == '\n' || c == '\r' || c == '\t' }

  function SkipSpace(s: string): (r: string)
    ensures |r| <= |s| && (r != [] ==> !IsSpace(r[0]))
  {
    if s != [] && IsSpace(s[0]) then SkipSpace(s[1..]) else s
  }

  predicate Starts(s: string, c: char) { s != [] && s[0] == c }

  function SkipDigits(s: string): (r: string)
    ensures |r| <= |s|
  {
    if s != [] && IsDigit(s[0]) then SkipDigits(s[1..]) else s
  }

  /** At least one digit. */
  function AfterDigits(s: string): (r: Option<string>)
    ensures r.Some? ==> |r.value| < |s|
  {
    if s != [] && IsDigit(s[0]) then Some(SkipDigits(s[1..])) else None
  }

  function AfterSign(s: string): string { if Starts(s, '-') then s[1..] else s }

  function AfterWhole(s: string): Option<string> {
    if Starts(s, '0') then Some(s[1..]) else AfterDigits(s)
  }

  function AfterFraction(s: string): Option<string> {
    if Starts(s, '.') then AfterDigits(s[1..]) else Some(s)
  }

  function AfterExponent(s: string): Option<string> {
    if Starts(s, 'e') || Starts(s, 'E') then
      AfterDigits(if Starts(s[1..], '+') || Starts(s[1..], '-') then s[2..] else s[1..])
    else Some(s)
  }

  function ParseNumber(s: string): (r: Parsed<Value>)
    ensures r.Ok? ==> |r.value.1| < |s|
  {
    match AfterWhole(AfterSign(s))
    case None => Err
    case Some(a) =>
      match AfterFraction(a)
      case None => Err
      case Some(b) =>
        match AfterExponent(b)
        case None => Err
        case Some(rest) => Ok((Number(s[..|s| - |rest|]), rest))
  }

  function HexValue(c: char): Option<nat> {
    if '0' <= c <= '9' then Some(c as int - '0' as int)
    else if 'a' <= c <= 'f' then Some(c as int - 'a' as int + 10)
    else if 'A' <= c <= 'F' then Some(c as int - 'A' as int + 10)
    else None
  }

  function HexRun(s: string, count: nat, value: nat): (r: Parsed<nat>)
    ensures r.Ok? ==> |r.value.1| == |s| - count
    decreases count
  {
    if count == 0 then Ok((value, s))
    else if s == [] then Err
    else match HexValue(s[0])
      case None => Err
      case Some(digit) => HexRun(s[1..], count - 1, value * 16 + digit)
  }

  function Scalar(code: nat): Option<char> {
    if code < 0xd800 || 0xe000 <= code <= 0x10ffff then Some(code as char) else None
  }

  function ParseUnicode(s: string): (r: Parsed<char>)
    ensures r.Ok? ==> |r.value.1| < |s|
  {
    match HexRun(s, 4, 0)
    case Err => Err
    case Ok((first, a)) =>
      if 0xd800 <= first <= 0xdbff then
        if !(|a| > 1 && a[0] == '\\' && a[1] == 'u') then Err
        else match HexRun(a[2..], 4, 0)
          case Err => Err
          case Ok((second, b)) =>
            if !(0xdc00 <= second <= 0xdfff) then Err
            else match Scalar(0x10000 + (first - 0xd800) * 1024 + second - 0xdc00)
              case Some(c) => Ok((c, b))
              case None => Err
      else match Scalar(first)
        case Some(c) => Ok((c, a))
        case None => Err
  }

  function ParseEscape(s: string): (r: Parsed<char>)
    ensures r.Ok? ==> |r.value.1| < |s|
  {
    if s == [] then Err
    else match s[0]
      case '"' => Ok(('"', s[1..]))
      case '\\' => Ok(('\\', s[1..]))
      case '/' => Ok(('/', s[1..]))
      case 'b' => Ok((8 as char, s[1..]))
      case 'f' => Ok((12 as char, s[1..]))
      case 'n' => Ok(('\n', s[1..]))
      case 'r' => Ok(('\r', s[1..]))
      case 't' => Ok(('\t', s[1..]))
      case 'u' => ParseUnicode(s[1..])
      case _ => Err
  }

  /** The characters up to the closing quote. */
  function ParseText(s: string): (r: Parsed<string>)
    ensures r.Ok? ==> |r.value.1| < |s|
    decreases |s|
  {
    if s == [] then Err
    else if s[0] == '"' then Ok(([], s[1..]))
    else if s[0] == '\\' then
      match ParseEscape(s[1..])
      case Err => Err
      case Ok((c, a)) => Prepend(c, ParseText(a))
    else if s[0] as int <= 31 then Err
    else Prepend(s[0], ParseText(s[1..]))
  }

  function Prepend(c: char, r: Parsed<string>): Parsed<string> {
    match r case Err => Err case Ok((text, rest)) => Ok(([c] + text, rest))
  }

  function ParseString(s: string): (r: Parsed<string>)
    ensures r.Ok? ==> |r.value.1| < |s|
  {
    if Starts(s, '"') then ParseText(s[1..]) else Err
  }

  function ParseLiteral(s: string, text: string, value: Value): (r: Parsed<Value>)
    requires text != []
    ensures r.Ok? ==> |r.value.1| < |s|
  {
    if text <= s then Ok((value, s[|text|..])) else Err
  }

  /** The ordered entries with one more, unless its key is taken. */
  function Insert(entries: seq<Member>, key: string, value: Value): Option<seq<Member>> {
    if entries == [] then Some([Member(key, value)])
    else if entries[0].key == key then None
    else if Less(key, entries[0].key) then Some([Member(key, value)] + entries)
    else match Insert(entries[1..], key, value)
      case None => None
      case Some(rest) => Some([entries[0]] + rest)
  }

  function ParseValue(s: string, depth: nat): (r: Parsed<Value>)
    ensures r.Ok? ==> |r.value.1| < |s|
    decreases |s|, 0
  {
    var t := SkipSpace(s);
    if depth > MAX_DEPTH || t == [] then Err
    else if t[0] == 'n' then ParseLiteral(t, "null", Null)
    else if t[0] == 't' then ParseLiteral(t, "true", Bool(true))
    else if t[0] == 'f' then ParseLiteral(t, "false", Bool(false))
    else if t[0] == '"' then
      match ParseString(t) case Err => Err case Ok((text, rest)) => Ok((String(text), rest))
    else if t[0] == '-' || IsDigit(t[0]) then ParseNumber(t)
    else if t[0] == '[' then
      var a := SkipSpace(t[1..]);
      if Starts(a, ']') then Ok((Array([]), a[1..]))
      else match ParseItems(a, depth + 1)
        case Err => Err
        case Ok((values, rest)) => Ok((Array(values), rest))
    else if t[0] == '{' then
      var a := SkipSpace(t[1..]);
      if Starts(a, '}') then Ok((Object([]), a[1..]))
      else match ParseMembers(a, depth + 1, [])
        case Err => Err
        case Ok((entries, rest)) => Ok((Object(entries), rest))
    else Err
  }

  /** One or more values up to the closing bracket. */
  function ParseItems(s: string, depth: nat): (r: Parsed<seq<Value>>)
    ensures r.Ok? ==> |r.value.1| < |s|
    decreases |s|, 1
  {
    match ParseValue(s, depth)
    case Err => Err
    case Ok((value, a)) =>
      var b := SkipSpace(a);
      if Starts(b, ']') then Ok(([value], b[1..]))
      else if !Starts(b, ',') then Err
      else match ParseItems(b[1..], depth)
        case Err => Err
        case Ok((values, rest)) => Ok(([value] + values, rest))
  }

  /** A key and its colon. */
  function ParseKey(s: string): (r: Parsed<string>)
    ensures r.Ok? ==> |r.value.1| < |s|
  {
    match ParseString(SkipSpace(s))
    case Err => Err
    case Ok((key, a)) =>
      var b := SkipSpace(a);
      if Starts(b, ':') then Ok((key, b[1..])) else Err
  }

  /** One or more members up to the closing brace, joining `entries`. */
  function ParseMembers(s: string, depth: nat, entries: seq<Member>): (r: Parsed<seq<Member>>)
    ensures r.Ok? ==> |r.value.1| < |s|
    decreases |s|, 1
  {
    match ParseKey(s)
    case Err => Err
    case Ok((key, a)) =>
      match ParseValue(a, depth)
      case Err => Err
      case Ok((value, b)) =>
        match Insert(entries, key, value)
        case None => Err
        case Some(joined) =>
          var c := SkipSpace(b);
          if Starts(c, '}') then Ok((joined, c[1..]))
          else if !Starts(c, ',') then Err
          else ParseMembers(c[1..], depth, joined)
  }

  function Parse(s: string): Result<Value> {
    match ParseValue(s, 0)
    case Err => Err
    case Ok((value, rest)) => if SkipSpace(rest) == [] then Ok(value) else Err
  }
}
