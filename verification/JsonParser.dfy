/**
  The moving-position parser and the printer that appends to its output, both
  proved against the functions of `Json`.
 */
module JsonParser {
  import opened Wrappers
  import opened Json
  import opened JsonRoundTrip

  class Parser {
    const input: string
    var position: nat

    ghost predicate Valid()
      reads this
    {
      position <= |input|
    }

    /** The text still ahead. */
    ghost function Ahead(): string
      requires Valid()
      reads this
    {
      input[position..]
    }

    constructor (input: string)
      ensures Valid() && this.input == input && Ahead() == input
    {
      this.input, position := input, 0;
    }

    /** A method and its function agree: same result, and the same text left. */
    ghost predicate Follows<T>(r: Result<T>, parsed: Parsed<T>)
      reads this
    {
      Valid() && match parsed case Err => r == Err case Ok((value, rest)) => r == Ok(value) && Ahead() == rest
    }

    method Whitespace()
      requires Valid()
      modifies this
      ensures Valid() && Ahead() == SkipSpace(old(Ahead()))
    {
      ghost var whole := Ahead();
      while position < |input| && IsSpace(input[position])
        invariant Valid() && SkipSpace(whole) == SkipSpace(Ahead())
      {
        assert input[position..][1..] == input[position + 1..];
        position := position + 1;
      }
    }

    method Take(c: char) returns (taken: bool)
      requires Valid()
      modifies this
      ensures Valid() && taken == Starts(old(Ahead()), c)
      ensures Ahead() == if taken then old(Ahead())[1..] else old(Ahead())
    {
      taken := position < |input| && input[position] == c;
      if taken {
        assert input[position..][1..] == input[position + 1..];
        position := position + 1;
      }
    }

    method Digits() returns (some: bool)
      requires Valid()
      modifies this
      ensures Valid() && some == AfterDigits(old(Ahead())).Some?
      ensures some ==> Ahead() == AfterDigits(old(Ahead())).value
    {
      ghost var whole := Ahead();
      var start := position;
      while position < |input| && IsDigit(input[position])
        invariant Valid() && start <= position
        invariant SkipDigits(whole) == SkipDigits(Ahead())
      {
        assert input[position..][1..] == input[position + 1..];
        position := position + 1;
      }
      some := position > start;
      assert SkipDigits(Ahead()) == Ahead();
    }

    method Literal(text: string, value: Value) returns (r: Result<Value>)
      requires Valid() && text != []
      modifies this
      ensures Follows(r, ParseLiteral(old(Ahead()), text, value))
    {
      if !(text <= input[position..]) {
        return Err;
      }
      assert input[position..][|text|..] == input[position + |text|..];
      position := position + |text|;
      return Ok(value);
    }

    /** Leaves what follows the integer part, or fails. */
    method WholePart() returns (ok: bool)
      requires Valid()
      modifies this
      ensures Valid() && ok == AfterWhole(old(Ahead())).Some?
      ensures ok ==> Ahead() == AfterWhole(old(Ahead())).value
    {
      var zero := Take('0');
      if zero {
        return true;
      }
      ok := Digits();
    }

    method FractionPart() returns (ok: bool)
      requires Valid()
      modifies this
      ensures Valid() && ok == AfterFraction(old(Ahead())).Some?
      ensures ok ==> Ahead() == AfterFraction(old(Ahead())).value
    {
      var point := Take('.');
      if !point {
        return true;
      }
      ok := Digits();
    }

    method ExponentPart() returns (ok: bool)
      requires Valid()
      modifies this
      ensures Valid() && ok == AfterExponent(old(Ahead())).Some?
      ensures ok ==> Ahead() == AfterExponent(old(Ahead())).value
    {
      ghost var s := Ahead();
      var exponent := Take('e');
      if !exponent {
        exponent := Take('E');
      }
      if !exponent {
        return true;
      }
      var plus := Take('+');
      if !plus {
        var _ := Take('-');
      }
      assert |s| > 1 ==> s[1..][1..] == s[2..];
      ok := Digits();
    }

    method Number() returns (r: Result<Value>)
      requires Valid()
      modifies this
      ensures Follows(r, ParseNumber(old(Ahead())))
    {
      hide AfterWhole, AfterFraction, AfterExponent;
      var start := position;
      ghost var s := Ahead();
      var _ := Take('-');
      var ok := WholePart();
      if !ok {
        return Err;
      }
      ok := FractionPart();
      if !ok {
        return Err;
      }
      ok := ExponentPart();
      if !ok {
        return Err;
      }
      assert ParseNumber(s).Ok? && ParseNumber(s).value.1 == Ahead();
      assert ParseNumber(s) == Ok((Value.Number(s[..|s| - |Ahead()|]), Ahead()));
      assert s[..|s| - |Ahead()|] == input[start..position];
      return Ok(Value.Number(input[start..position]));
    }

    method HexQuad() returns (r: Result<nat>)
      requires Valid()
      modifies this
      ensures Follows(r, HexRun(old(Ahead()), 4, 0))
    {
      var value := 0;
      ghost var s := Ahead();
      for k := 0 to 4
        invariant Valid() && HexRun(s, 4, 0) == HexRun(Ahead(), 4 - k, value)
      {
        if position >= |input| {
          return Err;
        }
        var digit := HexValue(input[position]);
        if digit.None? {
          return Err;
        }
        assert input[position..][1..] == input[position + 1..];
        position := position + 1;
        value := value * 16 + digit.value;
      }
      return Ok(value);
    }

    method Unicode() returns (r: Result<char>)
      requires Valid()
      modifies this
      ensures Follows(r, ParseUnicode(old(Ahead())))
    {
      hide HexRun;
      var first := HexQuad();
      if first.Err? {
        return Err;
      }
      var code := first.value;
      if 0xd800 <= code <= 0xdbff {
        ghost var a := Ahead();
        var slash := Take('\\');
        if !slash {
          return Err;
        }
        var u := Take('u');
        if !u {
          return Err;
        }
        assert a[1..][1..] == a[2..];
        var second := HexQuad();
        if second.Err? || !(0xdc00 <= second.value <= 0xdfff) {
          return Err;
        }
        code := 0x10000 + (code - 0xd800) * 1024 + second.value - 0xdc00;
      }
      match Scalar(code) {
        case Some(c) => return Ok(c);
        case None => return Err;
      }
    }

    method Escape() returns (r: Result<char>)
      requires Valid()
      modifies this
      ensures Follows(r, ParseEscape(old(Ahead())))
    {
      hide ParseUnicode;
      if position >= |input| {
        return Err;
      }
      var escape := input[position];
      assert input[position..][1..] == input[position + 1..];
      position := position + 1;
      match escape {
        case '"' => return Ok('"');
        case '\\' => return Ok('\\');
        case '/' => return Ok('/');
        case 'b' => return Ok(8 as char);
        case 'f' => return Ok(12 as char);
        case 'n' => return Ok('\n');
        case 'r' => return Ok('\r');
        case 't' => return Ok('\t');
        case 'u' => r := Unicode();
        case _ => return Err;
      }
    }

    /** `whole` is what is already read followed by what is still to come. */
    static ghost predicate Pending(whole: Parsed<string>, output: string, ahead: string) {
      match ParseText(ahead)
      case Err => whole == Err
      case Ok((text, rest)) => whole == Ok((output + text, rest))
    }

    static lemma PendingStep(whole: Parsed<string>, output: string, c: char, s: string, ahead: string)
      requires Pending(whole, output, s) && ParseText(s) == Prepend(c, ParseText(ahead))
      ensures Pending(whole, output + [c], ahead)
    {
      hide ParseText;
      if ParseText(ahead).Ok? {
        var text := ParseText(ahead).value.0;
        assert output + ([c] + text) == (output + [c]) + text;
      }
    }

    method Text() returns (r: Result<string>)
      requires Valid()
      modifies this
      ensures Follows(r, ParseString(old(Ahead())))
    {
      hide ParseEscape;
      var quote := Take('"');
      if !quote {
        return Err;
      }
      var output := "";
      ghost var whole := ParseText(Ahead());
      assert whole.Ok? ==> output + whole.value.0 == whole.value.0;
      while true
        invariant Valid() && Pending(whole, output, Ahead())
        decreases |input| - position
      {
        if position >= |input| {
          return Err;
        }
        var c := input[position];
        ghost var s := Ahead();
        assert s[1..] == input[position + 1..];
        if c == '"' {
          position := position + 1;
          assert output + [] == output;
          return Ok(output);
        } else if c == '\\' {
          position := position + 1;
          var escape := Escape();
          if escape.Err? {
            return Err;
          }
          PendingStep(whole, output, escape.value, s, Ahead());
          output := output + [escape.value];
        } else if c as int <= 31 {
          return Err;
        } else {
          position := position + 1;
          PendingStep(whole, output, c, s, Ahead());
          output := output + [c];
        }
      }
    }

    /** `whole` is `values` followed by the values still to come. */
    static ghost predicate ItemsPending(whole: Parsed<seq<Value>>, values: seq<Value>, ahead: string, depth: nat) {
      match ParseItems(ahead, depth)
      case Err => whole == Err
      case Ok((more, rest)) => whole == Ok((values + more, rest))
    }

    static lemma ItemsStep(whole: Parsed<seq<Value>>, values: seq<Value>, ahead: string, depth: nat)
      requires ItemsPending(whole, values, ahead, depth)
      ensures match ParseValue(ahead, depth)
              case Err => whole == Err
              case Ok((value, a)) =>
                var b := SkipSpace(a);
                if Starts(b, ']') then whole == Ok((values + [value], b[1..]))
                else if Starts(b, ',') then ItemsPending(whole, values + [value], b[1..], depth)
                else whole == Err
    {
      hide ParseValue;
      if ParseValue(ahead, depth).Ok? {
        var (value, a) := ParseValue(ahead, depth).value;
        var b := SkipSpace(a);
        if Starts(b, ',') && ParseItems(b[1..], depth).Ok? {
          var more := ParseItems(b[1..], depth).value.0;
          assert values + ([value] + more) == (values + [value]) + more;
        }
      }
    }

    method Items(depth: nat) returns (r: Result<seq<Value>>)
      requires Valid()
      modifies this
      ensures Follows(r, ParseItems(old(Ahead()), depth))
      decreases |input| - position, 1
    {
      hide ParseValue, ParseItems;
      var values: seq<Value> := [];
      ghost var whole := ParseItems(Ahead(), depth);
      assert whole.Ok? ==> values + whole.value.0 == whole.value.0;
      ghost var start := position;
      while true
        invariant Valid() && position >= start
        invariant ItemsPending(whole, values, Ahead(), depth)
        decreases |input| - position
      {
        ItemsStep(whole, values, Ahead(), depth);
        var value := ParsedValue(depth);
        if value.Err? {
          return Err;
        }
        values := values + [value.value];
        Whitespace();
        var close := Take(']');
        if close {
          return Ok(values);
        }
        var comma := Take(',');
        if !comma {
          return Err;
        }
      }
    }

    method Key() returns (r: Result<string>)
      requires Valid()
      modifies this
      ensures Follows(r, ParseKey(old(Ahead())))
    {
      hide ParseString;
      Whitespace();
      var key := Text();
      if key.Err? {
        return Err;
      }
      Whitespace();
      var colon := Take(':');
      return if colon then key else Err;
    }

    method Members(depth: nat) returns (r: Result<seq<Member>>)
      requires Valid()
      modifies this
      ensures Follows(r, ParseMembers(old(Ahead()), depth, []))
      decreases |input| - position, 1
    {
      hide ParseValue, ParseKey, Insert;
      var entries: seq<Member> := [];
      ghost var whole := ParseMembers(Ahead(), depth, []);
      ghost var start := position;
      while true
        invariant Valid() && position >= start
        invariant whole == ParseMembers(Ahead(), depth, entries)
        decreases |input| - position
      {
        var key := Key();
        if key.Err? {
          return Err;
        }
        var value := ParsedValue(depth);
        if value.Err? {
          return Err;
        }
        var joined := Insert(entries, key.value, value.value);
        if joined.None? {
          return Err;
        }
        entries := joined.value;
        Whitespace();
        var close := Take('}');
        if close {
          return Ok(entries);
        }
        var comma := Take(',');
        if !comma {
          return Err;
        }
      }
    }

    method ParsedValue(depth: nat) returns (r: Result<Value>)
      requires Valid()
      modifies this
      ensures Follows(r, ParseValue(old(Ahead()), depth))
      decreases |input| - position, 0
    {
      hide ParseItems, ParseMembers, ParseNumber, ParseString;
      if depth > MAX_DEPTH {
        return Err;
      }
      Whitespace();
      if position >= |input| {
        return Err;
      }
      var c := input[position];
      if c == 'n' {
        r := Literal("null", Null);
      } else if c == 't' {
        r := Literal("true", Bool(true));
      } else if c == 'f' {
        r := Literal("false", Bool(false));
      } else if c == '"' {
        var text := Text();
        return match text case Err => Err case Ok(t) => Ok(Value.String(t));
      } else if c == '-' || IsDigit(c) {
        r := Number();
      } else if c == '[' {
        var _ := Take('[');
        Whitespace();
        var close := Take(']');
        if close {
          return Ok(Array([]));
        }
        var values := Items(depth + 1);
        return match values case Err => Err case Ok(vs) => Ok(Array(vs));
      } else if c == '{' {
        var _ := Take('{');
        Whitespace();
        var close := Take('}');
        if close {
          return Ok(Object([]));
        }
        var entries := Members(depth + 1);
        return match entries case Err => Err case Ok(es) => Ok(Object(es));
      } else {
        return Err;
      }
    }
  }

  method ParseDocument(input: string) returns (r: Result<Value>)
    ensures r == Parse(input)
  {
    hide ParseValue;
    var parser := new Parser(input);
    var value := parser.ParsedValue(0);
    if value.Err? {
      return Err;
    }
    parser.Whitespace();
    if parser.position != |input| {
      return Err;
    }
    return value;
  }

  // ----- Writing

  lemma {:induction false} ItemsSoFar(values: seq<Value>, k: nat, depth: nat)
    requires 0 < k < |values|
    ensures PrintItems(false, values[..k + 1], depth)
         == PrintItems(false, values[..k], depth) + [','] + Print(false, values[k], depth)
    decreases k
  {
    hide Print;
    if k == 1 {
      assert values[..2][1..] == [values[1]];
    } else {
      assert values[..k + 1][1..] == values[1..][..k] && values[..k][1..] == values[1..][..k - 1];
      ItemsSoFar(values[1..], k - 1, depth);
    }
  }

  lemma {:induction false} MembersSoFar(entries: seq<Member>, k: nat, depth: nat)
    requires 0 < k < |entries|
    ensures PrintMembers(false, entries[..k + 1], depth)
         == PrintMembers(false, entries[..k], depth) + [','] + PrintMember(false, entries[k], depth)
    decreases k
  {
    hide PrintMember;
    if k == 1 {
      assert entries[..2][1..] == [entries[1]];
    } else {
      assert entries[..k + 1][1..] == entries[1..][..k] && entries[..k][1..] == entries[1..][..k - 1];
      MembersSoFar(entries[1..], k - 1, depth);
    }
  }

  /** Appends the compact text; the depth only indents, so it does not matter here. */
  method Write(value: Value, output: string, ghost depth: nat) returns (extended: string)
    ensures extended == output + Print(false, value, depth)
    decreases value, 1
  {
    hide PrintItems, PrintMembers, Quoted;
    match value
    case Null => extended := output + "null";
    case Bool(flag) => extended := output + if flag then "true" else "false";
    case Number(digits) => extended := output + digits;
    case String(text) => extended := WriteString(text, output);
    case Array(values) =>
      extended := output + "[";
      extended := WriteItems(values, extended, depth + 1);
      extended := extended + "]";
    case Object(entries) =>
      extended := output + "{";
      extended := WriteMembers(entries, extended, depth + 1);
      extended := extended + "}";
  }

  method WriteItems(values: seq<Value>, output: string, ghost depth: nat) returns (extended: string)
    ensures extended == output + if values == [] then [] else PrintItems(false, values, depth)
    decreases values, 0
  {
    hide Print, PrintItems;
    extended := output;
    for index := 0 to |values|
      invariant extended == output + if index == 0 then [] else PrintItems(false, values[..index], depth)
    {
      if index != 0 {
        ItemsSoFar(values, index, depth);
        extended := extended + ",";
      } else {
        FirstItem(values[..1], depth);
      }
      extended := Write(values[index], extended, depth);
    }
    assert values[..|values|] == values;
  }

  lemma FirstItem(values: seq<Value>, depth: nat)
    requires |values| == 1
    ensures PrintItems(false, values, depth) == Print(false, values[0], depth)
  {
    hide Print;
  }

  method WriteMembers(entries: seq<Member>, output: string, ghost depth: nat) returns (extended: string)
    ensures extended == output + if entries == [] then [] else PrintMembers(false, entries, depth)
    decreases entries, 0
  {
    hide Print, PrintMembers, Quoted;
    extended := output;
    for index := 0 to |entries|
      invariant extended == output + if index == 0 then [] else PrintMembers(false, entries[..index], depth)
    {
      if index != 0 {
        MembersSoFar(entries, index, depth);
        extended := extended + ",";
      } else {
        FirstMember(entries[..1], depth);
      }
      extended := WriteString(entries[index].key, extended);
      extended := extended + ":";
      extended := Write(entries[index].value, extended, depth);
    }
    assert entries[..|entries|] == entries;
  }

  lemma FirstMember(entries: seq<Member>, depth: nat)
    requires |entries| == 1
    ensures PrintMembers(false, entries, depth) == PrintMember(false, entries[0], depth)
  {
    hide PrintMember;
  }

  lemma {:induction false} EscapedSoFar(text: string, k: nat)
    requires k < |text|
    ensures EscapedAll(text[..k + 1]) == EscapedAll(text[..k]) + Escaped(text[k])
    decreases k
  {
    hide Escaped;
    if k == 0 {
      assert EscapedAll(text[..1][1..]) == [];
    } else {
      assert text[..k + 1][1..] == text[1..][..k] && text[..k][1..] == text[1..][..k - 1];
      EscapedSoFar(text[1..], k - 1);
    }
  }

  method WriteString(text: string, output: string) returns (extended: string)
    ensures extended == output + Quoted(text)
  {
    hide Escaped, EscapedAll;
    extended := output + "\"";
    NothingEscaped();
    assert text[..0] == [];
    for index := 0 to |text|
      invariant extended == output + ['"'] + EscapedAll(text[..index])
    {
      EscapedSoFar(text, index);
      extended := extended + Escaped(text[index]);
    }
    assert text[..|text|] == text;
    extended := extended + "\"";
  }

  lemma NothingEscaped()
    ensures EscapedAll([]) == []
  {
  }
}
