/**
  What a JSON text denotes, as the grammar of RFC 8259 has it, and that the
  parser reads exactly that.
 */
module JsonGrammar {
  import opened Wrappers
  import opened Json
  import opened JsonRoundTrip

  // ----- Strings (section 7)

  ghost predicate IsBlank(s: string) { forall k | 0 <= k < |s| :: IsSpace(s[k]) }

  /** What a two-character escape stands for. */
  function Short(c: char): Option<char> {
    match c
    case '"' => Some('"')
    case '\\' => Some('\\')
    case '/' => Some('/')
    case 'b' => Some(8 as char)
    case 'f' => Some(12 as char)
    case 'n' => Some('\n')
    case 'r' => Some('\r')
    case 't' => Some('\t')
    case _ => None
  }

  /** The number hexadecimal digits write, in either case, after `value`. */
  function HexCode(h: string, value: nat): Option<nat> {
    if h == [] then Some(value)
    else match HexValue(h[0])
      case None => None
      case Some(digit) => HexCode(h[1..], value * 16 + digit)
  }

  /** The code a six-character escape writes. */
  function LongCode(u: string): Option<nat>
    requires |u| == 6
  {
    if u[0] == '\\' && u[1] == 'u' then HexCode(u[2..], 0) else None
  }

  predicate IsPair(high: Option<nat>, low: Option<nat>, c: char) {
    && high.Some? && 0xd800 <= high.value <= 0xdbff && low.Some? && 0xdc00 <= low.value <= 0xdfff
    && c as int == 0x10000 + (high.value - 0xd800) * 0x400 + (low.value - 0xdc00)
  }

  /** How a string writes one character: as itself, as a short or a long escape,
      or as two long escapes for a surrogate pair. */
  predicate Writes(u: string, c: char) {
    || (u == [c] && c != '"' && c != '\\' && c as int > 0x1f)
    || (|u| == 2 && u[0] == '\\' && Short(u[1]) == Some(c))
    || (|u| == 6 && LongCode(u) == Some(c as nat))
    || (|u| == 12 && IsPair(LongCode(u[..6]), LongCode(u[6..]), c))
  }

  ghost predicate DenotesText(body: string, text: string)
    decreases |text|
  {
    if text == [] then body == []
    else exists n :: 0 < n <= |body| && Writes(body[..n], text[0]) && DenotesText(body[n..], text[1..])
  }

  predicate Enclosed(s: string, open: char, close: char) {
    |s| >= 2 && s[0] == open && s[|s| - 1] == close
  }

  function Inside(s: string): (inner: string)
    requires |s| >= 2
    ensures |inner| == |s| - 2
  {
    s[1..|s| - 1]
  }

  ghost predicate DenotesString(s: string, text: string) {
    Enclosed(s, '"', '"') && DenotesText(Inside(s), text)
  }

  // ----- Values (sections 2 to 6)

  ghost predicate Spaced(s: string, before: string, inner: string, after: string) {
    s == before + (inner + after) && IsBlank(before) && IsBlank(after)
  }

  ghost predicate DenotesKey(s: string, key: string) {
    exists before, inner, after :: Spaced(s, before, inner, after) && DenotesString(inner, key)
  }

  /** The entries are the members in the order of their keys, no key twice. */
  ghost predicate Sorts(members: seq<Member>, entries: seq<Member>) {
    Ordered(entries) && multiset(entries) == multiset(members)
  }

  /** A value without the space around it. */
  ghost predicate DenotesValue(s: string, value: Value)
    decreases |s|, 0
  {
    match value
    case Null => s == "null"
    case Bool(flag) => s == if flag then "true" else "false"
    case Number(digits) => s == digits && IsNumber(digits)
    case String(text) => DenotesString(s, text)
    case Array(values) => Enclosed(s, '[', ']') && DenotesItems(Inside(s), values)
    case Object(entries) =>
      Enclosed(s, '{', '}') && exists members :: Sorts(members, entries) && DenotesMembers(Inside(s), members)
  }

  /** A value with any space around it; this is what a whole text is. */
  ghost predicate Denotes(s: string, value: Value)
    decreases |s|, 1
  {
    exists before, inner, after :: Spaced(s, before, inner, after) && DenotesValue(inner, value)
  }

  ghost predicate DenotesItems(s: string, values: seq<Value>)
    decreases |s|, 2
  {
    if values == [] then IsBlank(s)
    else if |values| == 1 then Denotes(s, values[0])
    else exists n :: 0 <= n < |s| && s[n] == ',' && Denotes(s[..n], values[0]) && DenotesItems(s[n + 1..], values[1..])
  }

  ghost predicate DenotesMember(s: string, m: Member)
    decreases |s|, 2
  {
    exists n :: 0 <= n < |s| && s[n] == ':' && DenotesKey(s[..n], m.key) && Denotes(s[n + 1..], m.value)
  }

  ghost predicate DenotesMembers(s: string, members: seq<Member>)
    decreases |s|, 3
  {
    if members == [] then IsBlank(s)
    else if |members| == 1 then DenotesMember(s, members[0])
    else exists n :: 0 <= n < |s| && s[n] == ',' && DenotesMember(s[..n], members[0])
                     && DenotesMembers(s[n + 1..], members[1..])
  }

  // ----- Strings are read as the grammar has them

  lemma {:induction false} HexRunIsCode(s: string, count: nat, value: nat)
    requires |s| >= count
    ensures HexRun(s, count, value) ==
            match HexCode(s[..count], value) case Some(n) => Ok((n, s[count..])) case None => Err
    decreases count
  {
    if count > 0 {
      hide HexValue;
      assert s[..count][1..] == s[1..][..count - 1];
      match HexValue(s[0]) {
        case None =>
        case Some(digit) => HexRunIsCode(s[1..], count - 1, value * 16 + digit);
      }
    }
  }

  lemma LongReads(u: string, c: char, tail: string)
    requires |u| == 6 && LongCode(u) == Some(c as nat)
    ensures ParseEscape((u + tail)[1..]) == Ok((c, tail))
  {
    hide HexRun, HexCode;
    var s := (u + tail)[2..];
    assert (u + tail)[1..][1..] == s && s[..4] == u[2..] && s[4..] == tail;
    HexRunIsCode(s, 4, 0);
  }

  lemma PairReads(u: string, c: char, tail: string)
    requires |u| == 12 && IsPair(LongCode(u[..6]), LongCode(u[6..]), c)
    ensures ParseEscape((u + tail)[1..]) == Ok((c, tail))
  {
    hide HexRun, HexCode;
    var s := (u + tail)[2..];
    assert (u + tail)[1..][1..] == s && s[..4] == u[..6][2..];
    HexRunIsCode(s, 4, 0);
    var a := s[4..];
    assert a == u[6..] + tail;
    assert a[2..][..4] == u[6..][2..] && a[2..][4..] == tail;
    HexRunIsCode(a[2..], 4, 0);
  }

  lemma CharParses(u: string, c: char, tail: string)
    requires Writes(u, c)
    ensures ParseText(u + tail) == Prepend(c, ParseText(tail))
  {
    hide ParseUnicode, LongCode, IsPair;
    var s := u + tail;
    if u == [c] && c != '"' && c != '\\' && c as int > 0x1f {
      assert s[1..] == tail;
    } else {
      assert ParseEscape(s[1..]) == Ok((c, tail)) && s[0] == '\\' by {
        if |u| == 2 {
          assert s[1..][1..] == tail;
        } else {
          LongStarts(u, c);
          hide ParseEscape;
          if |u| == 6 {
            LongReads(u, c, tail);
          } else {
            PairReads(u, c, tail);
          }
        }
      }
    }
  }

  lemma LongStarts(u: string, c: char)
    requires Writes(u, c) && |u| > 2
    ensures u[0] == '\\'
    ensures |u| == 6 || |u| == 12
  {
    hide HexCode;
  }

  lemma FirstChar(body: string, text: string) returns (n: nat)
    requires DenotesText(body, text) && text != []
    ensures 0 < n <= |body| && Writes(body[..n], text[0]) && DenotesText(body[n..], text[1..])
  {
    hide Writes;
    n :| 0 < n <= |body| && Writes(body[..n], text[0]) && DenotesText(body[n..], text[1..]);
  }

  lemma NoChars(body: string, rest: string)
    requires DenotesText(body, [])
    ensures ParseText(body + (['"'] + rest)) == Ok(([], rest))
  {
    assert body + (['"'] + rest) == ['"'] + rest;
  }

  lemma {:induction false} TextParses(body: string, text: string, rest: string)
    requires DenotesText(body, text)
    ensures ParseText(body + (['"'] + rest)) == Ok((text, rest))
    decreases |text|
  {
    hide ParseText, Writes, DenotesText;
    if text == [] {
      NoChars(body, rest);
    } else {
      var n := FirstChar(body, text);
      TextParses(body[n..], text[1..], rest);
      CharParses(body[..n], text[0], body[n..] + (['"'] + rest));
      assert body + (['"'] + rest) == body[..n] + (body[n..] + (['"'] + rest));
      assert text == [text[0]] + text[1..];
    }
  }

  lemma StringParses(s: string, text: string, rest: string)
    requires DenotesString(s, text)
    ensures ParseString(s + rest) == Ok((text, rest))
  {
    hide ParseText, DenotesText;
    TextParses(Inside(s), text, rest);
    assert (s + rest)[1..] == Inside(s) + (['"'] + rest);
  }

  // ----- And nothing else is read as a string

  lemma HexRunGives(s: string)
    requires HexRun(s, 4, 0).Ok?
    ensures |s| >= 4 && HexCode(s[..4], 0) == Some(HexRun(s, 4, 0).value.0) && HexRun(s, 4, 0).value.1 == s[4..]
  {
    assert |s| >= 4;
    HexRunIsCode(s, 4, 0);
  }

  lemma ShortGives(s: string)
    requires ParseEscape(s).Ok? && s[0] != 'u'
    ensures ParseEscape(s).value.1 == s[1..] && Writes(['\\'] + s[..1], ParseEscape(s).value.0)
  {
    hide ParseUnicode, LongCode, IsPair;
    assert ['\\'] + s[..1] == ['\\', s[0]];
    assert Short(s[0]) == Some(ParseEscape(s).value.0);
  }

  /** An escape that is read writes its character. */
  lemma EscapeGives(s: string) returns (n: nat)
    requires ParseEscape(s).Ok?
    ensures 0 < n <= |s| && ParseEscape(s).value.1 == s[n..]
    ensures Writes(['\\'] + s[..n], ParseEscape(s).value.0)
  {
    hide ParseUnicode, Writes;
    if s[0] == 'u' {
      var k := UnicodeGives(s[1..]);
      n := k + 1;
      assert (['\\'] + s[..n]) == ['\\', 'u'] + s[1..][..n - 1];
    } else {
      n := 1;
      ShortGives(s);
    }
  }

  lemma UnicodeGives(s: string) returns (n: nat)
    requires ParseUnicode(s).Ok?
    ensures n <= |s| && ParseUnicode(s).value.1 == s[n..] && Writes(['\\', 'u'] + s[..n], ParseUnicode(s).value.0)
  {
    hide HexRun, HexCode;
    HexRunGives(s);
    var (first, a) := HexRun(s, 4, 0).value;
    if 0xd800 <= first <= 0xdbff {
      HexRunGives(a[2..]);
      n := 10;
      var u := ['\\', 'u'] + s[..10];
      assert u[..6][2..] == s[..4];
      assert u[6..][2..] == a[2..][..4];
    } else {
      n := 4;
      assert (['\\', 'u'] + s[..4])[2..] == s[..4];
    }
  }

  /** The first character of a text that is read, and the rest of it. */
  lemma FirstRead(s: string) returns (n: nat)
    requires ParseText(s).Ok? && s[0] != '"'
    ensures 0 < n <= |s| && ParseText(s).value.0 != [] && Writes(s[..n], ParseText(s).value.0[0])
    ensures ParseText(s[n..]) == Ok((ParseText(s).value.0[1..], ParseText(s).value.1))
  {
    hide Writes, ParseEscape;
    if s[0] == '\\' {
      var k := EscapeGives(s[1..]);
      n := k + 1;
      assert s[1..][k..] == s[n..] && ['\\'] + s[1..][..k] == s[..n];
    } else {
      n := 1;
      PlainCharWrites(s);
    }
  }

  lemma OneMoreChar(u: string, more: string, text: string)
    requires u != [] && text != [] && Writes(u, text[0]) && DenotesText(more, text[1..])
    ensures DenotesText(u + more, text)
  {
    hide Writes;
    assert (u + more)[..|u|] == u && (u + more)[|u|..] == more;
  }

  lemma EndOfText(s: string)
    requires ParseText(s).Ok? && (s == [] || s[0] == '"')
    ensures s == ['"'] + ParseText(s).value.1 && DenotesText([], ParseText(s).value.0)
  {
  }

  lemma {:induction false} TextDenotes(s: string) returns (body: string)
    requires ParseText(s).Ok?
    ensures s == body + (['"'] + ParseText(s).value.1)
    ensures DenotesText(body, ParseText(s).value.0)
    decreases |s|
  {
    hide Writes, ParseText, DenotesText;
    if s == [] || s[0] == '"' {
      body := [];
      EndOfText(s);
    } else {
      var n := FirstRead(s);
      var more := TextDenotes(s[n..]);
      body := s[..n] + more;
      OneMoreChar(s[..n], more, ParseText(s).value.0);
    }
  }

  lemma PlainCharWrites(s: string)
    requires s != [] && s[0] != '"' && s[0] != '\\' && s[0] as int > 0x1f
    ensures Writes(s[..1], s[0])
  {
    assert s[..1] == [s[0]];
  }

  lemma StringDenotes(s: string) returns (inner: string)
    requires ParseString(s).Ok?
    ensures s == inner + ParseString(s).value.1 && DenotesString(inner, ParseString(s).value.0)
  {
    hide ParseText, DenotesText;
    var body := TextDenotes(s[1..]);
    inner := ['"'] + body + ['"'];
    assert Inside(inner) == body;
  }

  // ----- Values are read as the grammar has them

  /** Characters that may begin a value, with the values they begin. */
  predicate Begins(c: char, value: Value) {
    match value
    case Null => c == 'n'
    case Bool(flag) => c == if flag then 't' else 'f'
    case Number(_) => c == '-' || IsDigit(c)
    case String(_) => c == '"'
    case Array(_) => c == '['
    case Object(_) => c == '{'
  }

  lemma ValueBegins(s: string, value: Value)
    requires DenotesValue(s, value)
    ensures s != [] && Begins(s[0], value) && !IsSpace(s[0])
  {
    hide DenotesText, DenotesItems, DenotesMembers, Sorts, IsNumber;
    if value.Number? {
      NumberStarts(value.digits);
    }
  }

  lemma BlankIsSkipped(before: string, s: string)
    requires IsBlank(before)
    ensures SkipSpace(before + s) == SkipSpace(s)
  {
    SpaceIsSkipped(before, s);
  }

  lemma {:induction false} SkippedIsBlank(s: string) returns (before: string)
    ensures s == before + SkipSpace(s) && IsBlank(before)
  {
    if s != [] && IsSpace(s[0]) {
      var more := SkippedIsBlank(s[1..]);
      before := [s[0]] + more;
    } else {
      before := [];
    }
  }

  /** Nothing a number could go on with follows. */
  lemma BlankEnds(after: string, rest: string)
    requires IsBlank(after) && Ends(rest)
    ensures Ends(after + rest)
  {
    if after != [] {
      assert (after + rest)[0] == after[0];
    } else {
      assert after + rest == rest;
    }
  }

  lemma {:induction false} ValueParses(s: string, value: Value, rest: string, depth: nat)
    requires DenotesValue(s, value) && Within(value, MAX_DEPTH - depth) && Ends(rest)
    ensures ParseValue(s + rest, depth) == Ok((value, rest))
    decreases |s|, 0
  {
    hide Ends, ParseNumber, ParseString, ParseItems, ParseMembers, IsNumber, DenotesText, DenotesItems, DenotesMembers,
         Sorts, SkipSpace;
    ValueBegins(s, value);
    match value
    case Null => LiteralParses(s, value, rest, depth);
    case Bool(flag) => LiteralParses(s, value, rest, depth);
    case Number(digits) =>
      NumberReadsBack(digits, rest);
      NumberIsRead(s + rest, depth);
    case String(text) =>
      StringParses(s, text, rest);
      StringIsRead(s + rest, depth);
    case Array(values) => ArrayParses(s, values, rest, depth);
    case Object(entries) => ObjectParses(s, entries, rest, depth);
  }

  lemma LiteralParses(s: string, value: Value, rest: string, depth: nat)
    requires (value.Null? || value.Bool?) && DenotesValue(s, value) && depth <= MAX_DEPTH
    ensures ParseValue(s + rest, depth) == Ok((value, rest))
  {
    var t := s + rest;
    assert SkipSpace(t) == t && t[|s|..] == rest && s <= t;
  }

  lemma NumberIsRead(t: string, depth: nat)
    requires t != [] && (t[0] == '-' || IsDigit(t[0])) && depth <= MAX_DEPTH
    ensures ParseValue(t, depth) == ParseNumber(t)
  {
    hide ParseNumber;
  }

  lemma StringIsRead(t: string, depth: nat)
    requires t != [] && t[0] == '"' && depth <= MAX_DEPTH && ParseString(t).Ok?
    ensures ParseValue(t, depth) == Ok((String(ParseString(t).value.0), ParseString(t).value.1))
  {
    hide ParseString;
  }

  /** A container, without what is in it. */
  lemma ArrayIsRead(inner: string, rest: string, depth: nat)
    requires depth <= MAX_DEPTH
    ensures var a := SkipSpace(inner + ([']'] + rest));
            ParseValue((['['] + inner + [']']) + rest, depth) ==
            if Starts(a, ']') then Ok((Array([]), a[1..]))
            else match ParseItems(a, depth + 1)
              case Err => Err
              case Ok((values, more)) => Ok((Array(values), more))
  {
    hide ParseItems;
    var t := (['['] + inner + [']']) + rest;
    assert SkipSpace(t) == t && t[1..] == inner + ([']'] + rest);
  }

  lemma ObjectIsRead(inner: string, rest: string, depth: nat)
    requires depth <= MAX_DEPTH
    ensures var a := SkipSpace(inner + (['}'] + rest));
            ParseValue((['{'] + inner + ['}']) + rest, depth) ==
            if Starts(a, '}') then Ok((Object([]), a[1..]))
            else match ParseMembers(a, depth + 1, [])
              case Err => Err
              case Ok((entries, more)) => Ok((Object(entries), more))
  {
    hide ParseMembers;
    var t := (['{'] + inner + ['}']) + rest;
    assert SkipSpace(t) == t && t[1..] == inner + (['}'] + rest);
  }

  lemma Opened(s: string, open: char, close: char)
    requires Enclosed(s, open, close)
    ensures s == [open] + Inside(s) + [close]
  {
  }

  lemma {:induction false} ArrayParses(s: string, values: seq<Value>, rest: string, depth: nat)
    requires Enclosed(s, '[', ']') && DenotesItems(Inside(s), values)
    requires Within(Array(values), MAX_DEPTH - depth) && Ends(rest)
    ensures ParseValue(s + rest, depth) == Ok((Array(values), rest))
    decreases |s|, -1
  {
    hide ParseValue, ParseItems, DenotesItems, SkipSpace, Ends;
    var inner := Inside(s);
    Opened(s, '[', ']');
    ArrayIsRead(inner, rest, depth);
    if values == [] {
      NothingInside(inner, ']', rest);
    } else {
      ItemsParse(inner, values, rest, depth + 1);
      ItemsBegin(inner, values, [']'] + rest);
      ItemsAfterSpace(inner + ([']'] + rest), depth + 1);
    }
  }

  lemma NothingInside(inner: string, close: char, rest: string)
    requires (DenotesItems(inner, []) || DenotesMembers(inner, [])) && !IsSpace(close)
    ensures SkipSpace(inner + ([close] + rest)) == [close] + rest
    ensures ([close] + rest)[1..] == rest
  {
    BlankIsSkipped(inner, [close] + rest);
  }

  /** A value with space around it, at the front of a text. */
  lemma SpacedBegins(s: string, value: Value, rest: string)
    requires Denotes(s, value)
    ensures SkipSpace(s + rest) != [] && Begins(SkipSpace(s + rest)[0], value)
  {
    hide DenotesValue;
    var before, inner, after :| Spaced(s, before, inner, after) && DenotesValue(inner, value);
    ValueBegins(inner, value);
    assert s + rest == before + (inner + after + rest);
    BlankIsSkipped(before, inner + after + rest);
  }

  lemma ItemsCut(s: string, values: seq<Value>) returns (n: nat)
    requires |values| > 1 && DenotesItems(s, values)
    ensures n < |s| && s[n] == ',' && Denotes(s[..n], values[0]) && DenotesItems(s[n + 1..], values[1..])
  {
    hide Denotes;
    n :| 0 <= n < |s| && s[n] == ',' && Denotes(s[..n], values[0]) && DenotesItems(s[n + 1..], values[1..]);
  }

  lemma ItemsBegin(s: string, values: seq<Value>, rest: string)
    requires values != [] && DenotesItems(s, values)
    ensures !Starts(SkipSpace(s + rest), ']')
  {
    hide Denotes, SkipSpace;
    if |values| == 1 {
      SpacedBegins(s, values[0], rest);
    } else {
      var n := ItemsCut(s, values);
      hide DenotesItems;
      assert s + rest == s[..n] + (s[n..] + rest);
      SpacedBegins(s[..n], values[0], s[n..] + rest);
    }
  }

  lemma {:induction false} SpacedParses(s: string, value: Value, rest: string, depth: nat) returns (after: string)
    requires Denotes(s, value) && Within(value, MAX_DEPTH - depth) && Ends(rest)
    ensures ParseValue(s + rest, depth) == Ok((value, after)) && SkipSpace(after) == SkipSpace(rest)
    decreases |s|, 1
  {
    hide DenotesValue, ParseValue, Within, Ends;
    var before, inner, blank :| Spaced(s, before, inner, blank) && DenotesValue(inner, value);
    after := blank + rest;
    BlankEnds(blank, rest);
    BlankIsSkipped(blank, rest);
    assert s + rest == before + (inner + after);
    ValueParses(inner, value, after, depth);
    ValueAfterSpace(before + (inner + after), depth);
    ValueAfterSpace(inner + after, depth);
    BlankIsSkipped(before, inner + after);
  }

  lemma {:induction false} ItemsParse(s: string, values: seq<Value>, rest: string, depth: nat)
    requires values != [] && DenotesItems(s, values)
    requires forall k | 0 <= k < |values| :: Within(values[k], MAX_DEPTH - depth)
    ensures ParseItems(s + ([']'] + rest), depth) == Ok((values, rest))
    decreases |s|, 2
  {
    hide Denotes, ParseValue, ParseItems, Within;
    var close := [']'] + rest;
    if |values| == 1 {
      var after := SpacedParses(s, values[0], close, depth);
      NextItem(s + close, depth, values[0], after);
      assert close[1..] == rest && values == [values[0]];
    } else {
      var n := ItemsCut(s, values);
      hide DenotesItems;
      var more := s[n + 1..] + close;
      assert s + close == s[..n] + ([','] + more);
      var after := SpacedParses(s[..n], values[0], [','] + more, depth);
      ItemsParse(s[n + 1..], values[1..], rest, depth);
      assert SkipSpace([','] + more) == [','] + more && ([','] + more)[1..] == more;
      NextItem(s + close, depth, values[0], after);
      assert values == [values[0]] + values[1..];
    }
  }

  // ----- Objects

  lemma {:induction false} OrderedIsUnique(a: seq<Member>, b: seq<Member>)
    requires Ordered(a) && Ordered(b) && multiset(a) == multiset(b)
    ensures a == b
    decreases |a|
  {
    assert |a| == |multiset(a)| == |multiset(b)| == |b|;
    if a != [] {
      var n := |a| - 1;
      GreatestIsLast(a, b);
      WithoutLast(a);
      WithoutLast(b);
      hide Ordered;
      OrderedIsUnique(a[..n], b[..n]);
    }
  }

  lemma WithoutLast(a: seq<Member>)
    requires a != [] && Ordered(a)
    ensures a == a[..|a| - 1] + [a[|a| - 1]] && Ordered(a[..|a| - 1])
    ensures multiset(a[..|a| - 1]) == multiset(a) - multiset{a[|a| - 1]}
  {
    var n := |a| - 1;
    assert a == a[..n] + [a[n]];
  }

  lemma GreatestIsLast(a: seq<Member>, b: seq<Member>)
    requires Ordered(a) && Ordered(b) && multiset(a) == multiset(b) && |a| == |b| > 0
    ensures a[|a| - 1] == b[|b| - 1]
  {
    var n := |a| - 1;
    assert a[n] in multiset(b) && b[n] in multiset(a);
    var i :| 0 <= i < |b| && b[i] == a[n];
    var j :| 0 <= j < |a| && a[j] == b[n];
    assert i < n ==> Less(b[i].key, b[n].key);
    assert j < n ==> Less(a[j].key, a[n].key);
    LessIsTotal(a[n].key, b[n].key);
  }

  lemma NoOtherKey(entries: seq<Member>, i: nat, k: nat)
    requires Ordered(entries) && i < |entries| && k < |entries| && i != k
    ensures entries[i].key != entries[k].key
  {
    LessIsTotal(entries[i].key, entries[i].key);
    hide Less;
    assert Less(entries[i].key, entries[k].key) || Less(entries[k].key, entries[i].key);
  }

  lemma CountedOnce(entries: seq<Member>, i: nat)
    requires i < |entries| && forall k | 0 <= k < |entries| && k != i :: entries[k] != entries[i]
    ensures multiset(entries)[entries[i]] == 1
  {
    var m, before, after := entries[i], entries[..i], entries[i + 1..];
    assert entries == before + [m] + after;
    assert m !in before;
    assert m !in after;
  }

  lemma TwoPlaces(entries: seq<Member>, m: Member, n: Member)
    requires Ordered(entries) && m in entries && n in entries && m.key == n.key
    ensures m == n && multiset(entries)[m] == 1
  {
    hide Ordered;
    var i :| 0 <= i < |entries| && entries[i] == m;
    forall k | 0 <= k < |entries| && k != i
      ensures entries[k].key != m.key
    {
      NoOtherKey(entries, i, k);
    }
    CountedOnce(entries, i);
  }

  /** A member of the final entries has a key of its own. */
  lemma InsertJoins(done: seq<Member>, m: Member, others: multiset<Member>, entries: seq<Member>)
    requires Ordered(done) && Ordered(entries) && multiset(entries) == multiset(done) + multiset{m} + others
    ensures Insert(done, m.key, m.value).Some?
    ensures Ordered(Insert(done, m.key, m.value).value)
    ensures multiset(Insert(done, m.key, m.value).value) == multiset(done) + multiset{m}
  {
    forall k | 0 <= k < |done|
      ensures done[k].key != m.key
    {
      if done[k].key == m.key {
        assert multiset(done)[done[k]] >= 1;
        assert done[k] in multiset(entries) && m in multiset(entries);
        TwoPlaces(entries, m, done[k]);
      }
    }
    InsertAddsOne(done, m);
  }

  lemma InsertAddsOne(done: seq<Member>, m: Member)
    requires Ordered(done)
    ensures !HasKey(done, m.key) <==> Insert(done, m.key, m.value).Some?
    ensures Insert(done, m.key, m.value).Some? ==> Ordered(Insert(done, m.key, m.value).value)
    ensures Insert(done, m.key, m.value).Some? ==>
              multiset(Insert(done, m.key, m.value).value) == multiset(done) + multiset{m}
  {
    var at := InsertAdds(done, m.key, m.value);
    if !HasKey(done, m.key) {
      InsertKeepsOrder(done, m.key, m.value);
      assert done == done[..at] + done[at..];
    }
  }

  lemma KeyParses(s: string, key: string, rest: string)
    requires DenotesKey(s, key)
    ensures ParseKey(s + ([':'] + rest)) == Ok((key, rest))
    ensures SkipSpace(s + ([':'] + rest)) != [] && SkipSpace(s + ([':'] + rest))[0] == '"'
  {
    hide ParseString, DenotesText;
    var colon := [':'] + rest;
    var before, inner, after :| Spaced(s, before, inner, after) && DenotesString(inner, key);
    assert s + colon == before + (inner + (after + colon));
    BlankIsSkipped(before, inner + (after + colon));
    StringParses(inner, key, after + colon);
    BlankIsSkipped(after, colon);
    assert colon[1..] == rest;
  }

  lemma {:induction false} MemberParses(s: string, m: Member, rest: string, depth: nat) returns (after: string)
    requires DenotesMember(s, m) && Within(m.value, MAX_DEPTH - depth) && Ends(rest)
    ensures ParseKey(s + rest).Ok? && ParseKey(s + rest).value.0 == m.key
    ensures ParseValue(ParseKey(s + rest).value.1, depth) == Ok((m.value, after)) && SkipSpace(after) == SkipSpace(rest)
    ensures !Starts(SkipSpace(s + rest), '}')
    decreases |s|, 2
  {
    hide Denotes, DenotesKey, ParseKey, ParseValue, Within, SkipSpace, Ends;
    var n :| 0 <= n < |s| && s[n] == ':' && DenotesKey(s[..n], m.key) && Denotes(s[n + 1..], m.value);
    assert s + rest == s[..n] + ([':'] + (s[n + 1..] + rest));
    KeyParses(s[..n], m.key, s[n + 1..] + rest);
    after := SpacedParses(s[n + 1..], m.value, rest, depth);
  }

  /** One member and what is left after it. */
  lemma NextJoined(s: string, depth: nat, done: seq<Member>, m: Member, joined: seq<Member>, after: string)
    requires ParseKey(s).Ok? && ParseKey(s).value.0 == m.key
    requires ParseValue(ParseKey(s).value.1, depth) == Ok((m.value, after))
    requires Insert(done, m.key, m.value) == Some(joined)
    requires Starts(SkipSpace(after), '}') || Starts(SkipSpace(after), ',')
    ensures ParseMembers(s, depth, done)
         == if Starts(SkipSpace(after), '}') then Ok((joined, SkipSpace(after)[1..]))
            else ParseMembers(SkipSpace(after)[1..], depth, joined)
  {
    hide ParseValue, ParseKey, Insert;
  }

  lemma FirstMember(members: seq<Member>)
    requires members != []
    ensures multiset(members) == multiset{members[0]} + multiset(members[1..])
  {
    assert members == [members[0]] + members[1..];
  }

  lemma MembersCut(s: string, members: seq<Member>) returns (n: nat)
    requires |members| > 1 && DenotesMembers(s, members)
    ensures n < |s| && s[n] == ',' && DenotesMember(s[..n], members[0]) && DenotesMembers(s[n + 1..], members[1..])
  {
    hide DenotesMember;
    n :| 0 <= n < |s| && s[n] == ',' && DenotesMember(s[..n], members[0]) && DenotesMembers(s[n + 1..], members[1..]);
  }

  /** A character that stands between or after values. */
  lemma Separates(c: char, rest: string)
    requires c in {',', ']', '}'}
    ensures SkipSpace([c] + rest) == [c] + rest && ([c] + rest)[1..] == rest && Ends([c] + rest)
  {
  }

  lemma {:induction false} MembersParse(
    s: string, members: seq<Member>, done: seq<Member>, entries: seq<Member>, rest: string, depth: nat
  )
    requires members != [] && DenotesMembers(s, members) && Ordered(done) && Ordered(entries)
    requires multiset(entries) == multiset(done) + multiset(members)
    requires forall k | 0 <= k < |members| :: Within(members[k].value, MAX_DEPTH - depth)
    ensures ParseMembers(s + (['}'] + rest), depth, done) == Ok((entries, rest))
    ensures !Starts(SkipSpace(s + (['}'] + rest)), '}')
    decreases |s|, 3
  {
    hide DenotesMember, DenotesMembers, ParseValue, ParseKey, ParseMembers, Within, Ordered, Insert, SkipSpace, Ends;
    var close, m := ['}'] + rest, members[0];
    FirstMember(members);
    InsertJoins(done, m, multiset(members[1..]), entries);
    var joined := Insert(done, m.key, m.value).value;
    Separates('}', rest);
    if |members| == 1 {
      OneMember(s, members);
      var after := MemberParses(s, m, close, depth);
      NextJoined(s + close, depth, done, m, joined, after);
      assert members[1..] == [];
      OrderedIsUnique(joined, entries);
    } else {
      var n := MembersCut(s, members);
      var more := s[n + 1..] + close;
      assert s + close == s[..n] + ([','] + more);
      Separates(',', more);
      var after := MemberParses(s[..n], m, [','] + more, depth);
      NextJoined(s + close, depth, done, m, joined, after);
      MembersParse(s[n + 1..], members[1..], joined, entries, rest, depth);
    }
  }

  lemma OneMember(s: string, members: seq<Member>)
    requires |members| == 1 && DenotesMembers(s, members)
    ensures DenotesMember(s, members[0])
  {
    hide DenotesMember;
  }

  lemma MembersAfterSpace(s: string, depth: nat, done: seq<Member>)
    ensures ParseMembers(s, depth, done) == ParseMembers(SkipSpace(s), depth, done)
  {
    SkippedTwice(s);
    hide ParseValue, ParseString, Insert;
  }

  lemma SortedValues(members: seq<Member>, entries: seq<Member>, limit: int)
    requires Sorts(members, entries) && Within(Object(entries), limit)
    ensures forall k | 0 <= k < |members| :: Within(members[k].value, limit - 1)
    ensures members == [] <==> entries == []
  {
    forall k | 0 <= k < |members|
      ensures Within(members[k].value, limit - 1)
    {
      assert members[k] in multiset(entries);
    }
    assert |members| == |multiset(members)| && |entries| == |multiset(entries)|;
  }

  lemma {:induction false} ObjectParses(s: string, entries: seq<Member>, rest: string, depth: nat)
    requires DenotesValue(s, Object(entries))
    requires Within(Object(entries), MAX_DEPTH - depth) && Ends(rest)
    ensures ParseValue(s + rest, depth) == Ok((Object(entries), rest))
    decreases |s|, -1
  {
    hide ParseValue, ParseMembers, DenotesMembers, SkipSpace, Ends, Ordered;
    var inner := Inside(s);
    Opened(s, '{', '}');
    ObjectIsRead(inner, rest, depth);
    var members :| Sorts(members, entries) && DenotesMembers(inner, members);
    SortedValues(members, entries, MAX_DEPTH - depth);
    if members == [] {
      NothingInside(inner, '}', rest);
    } else {
      EmptyIsOrdered();
      MembersParse(inner, members, [], entries, rest, depth + 1);
      MembersAfterSpace(inner + (['}'] + rest), depth + 1, []);
    }
  }

  lemma EmptyIsOrdered()
    ensures Ordered([])
  {
  }

  // ----- And nothing else is read as a value

  lemma {:induction false} ValueDenotes(s: string, depth: nat) returns (inner: string)
    requires ParseValue(s, depth).Ok?
    ensures SkipSpace(s) == inner + ParseValue(s, depth).value.1 && DenotesValue(inner, ParseValue(s, depth).value.0)
    decreases |s|, 0
  {
    hide ParseNumber, ParseString, ParseItems, ParseMembers, IsNumber, DenotesText, DenotesItems, DenotesMembers,
         Ordered;
    var t := SkipSpace(s);
    if t[0] in {'n', 't', 'f'} {
      inner := t[..if t[0] == 'f' then 5 else 4];
    } else if t[0] == '"' {
      inner := StringDenotes(t);
    } else if t[0] == '-' || IsDigit(t[0]) {
      NumberGives(t);
      inner := ParseNumber(t).value.0.digits;
    } else if t[0] == '[' {
      inner := ArrayDenotes(t, depth);
    } else {
      inner := ObjectDenotes(t, depth);
    }
  }

  lemma {:induction false} ArrayDenotes(t: string, depth: nat) returns (inner: string)
    requires t != [] && t[0] == '[' && ParseValue(t, depth).Ok?
    ensures t == inner + ParseValue(t, depth).value.1 && DenotesValue(inner, ParseValue(t, depth).value.0)
    decreases |t|, -1
  {
    hide ParseItems, DenotesItems, SkipSpace;
    assert SkipSpace(t) == t by {
      NotSkipped(t);
    }
    var a := SkipSpace(t[1..]);
    var before := SkippedIsBlank(t[1..]);
    var body;
    if Starts(a, ']') {
      body := before;
      BlankIsNothing(body);
      assert t == ['['] + (body + ([']'] + a[1..]));
    } else {
      var items := ItemsDenote(a, depth + 1);
      body := before + items;
      var (values, rest) := ParseItems(a, depth + 1).value;
      ItemsAfterBlank(before, items, values);
      assert t == ['['] + (body + ([']'] + rest));
    }
    inner := ['['] + body + [']'];
    assert Inside(inner) == body;
  }

  lemma NotSkipped(t: string)
    requires t != [] && !IsSpace(t[0])
    ensures SkipSpace(t) == t
  {
  }

  lemma BlankIsNothing(body: string)
    requires IsBlank(body)
    ensures DenotesItems(body, []) && DenotesMembers(body, [])
  {
  }

  lemma SpaceInFront(before: string, s: string, value: Value)
    requires IsBlank(before) && Denotes(s, value)
    ensures Denotes(before + s, value)
  {
    hide DenotesValue;
    var b, inner, after :| Spaced(s, b, inner, after) && DenotesValue(inner, value);
    assert before + s == (before + b) + (inner + after);
    assert Spaced(before + s, before + b, inner, after);
  }

  lemma AtComma(before: string, s: string, n: nat)
    requires n < |s| && s[n] == ','
    ensures before + s == (before + s[..n]) + ([','] + s[n + 1..])
  {
    assert s == s[..n] + ([','] + s[n + 1..]);
  }

  lemma ItemsAfterBlank(before: string, s: string, values: seq<Value>)
    requires IsBlank(before) && values != [] && DenotesItems(s, values)
    ensures DenotesItems(before + s, values)
  {
    hide Denotes;
    if |values| == 1 {
      SpaceInFront(before, s, values[0]);
    } else {
      var n := ItemsCut(s, values);
      hide DenotesItems;
      SpaceInFront(before, s[..n], values[0]);
      MoreItems(before + s[..n], s[n + 1..], values);
      AtComma(before, s, n);
    }
  }

  lemma MoreItems(first: string, more: string, values: seq<Value>)
    requires |values| > 1 && Denotes(first, values[0]) && DenotesItems(more, values[1..])
    ensures DenotesItems(first + ([','] + more), values)
  {
    hide Denotes;
    var s, n := first + ([','] + more), |first|;
    assert s[..n] == first && s[n] == ',' && s[n + 1..] == more;
  }

  /** A value that is read, with the space on both sides. */
  lemma {:induction false} SpacedDenotes(s: string, depth: nat) returns (body: string)
    requires ParseValue(s, depth).Ok?
    ensures s == body + SkipSpace(ParseValue(s, depth).value.1) && Denotes(body, ParseValue(s, depth).value.0)
    decreases |s|, 1
  {
    hide ParseValue, DenotesValue;
    var (value, rest) := ParseValue(s, depth).value;
    var inner := ValueDenotes(s, depth);
    var before := SkippedIsBlank(s);
    var after := SkippedIsBlank(rest);
    body := before + (inner + after);
    assert Spaced(body, before, inner, after);
  }

  lemma {:induction false} ItemsDenote(s: string, depth: nat) returns (body: string)
    requires ParseItems(s, depth).Ok?
    ensures s == body + ([']'] + ParseItems(s, depth).value.1)
    ensures ParseItems(s, depth).value.0 != [] && DenotesItems(body, ParseItems(s, depth).value.0)
    decreases |s|, 2
  {
    hide Denotes, ParseValue;
    var (value, a) := ParseValue(s, depth).value;
    var first := SpacedDenotes(s, depth);
    var b := SkipSpace(a);
    if Starts(b, ']') {
      body := first;
    } else {
      var more := ItemsDenote(b[1..], depth);
      body := first + ([','] + more);
      MoreItems(first, more, ParseItems(s, depth).value.0);
    }
  }

  lemma {:induction false} ObjectDenotes(t: string, depth: nat) returns (inner: string)
    requires t != [] && t[0] == '{' && ParseValue(t, depth).Ok?
    ensures t == inner + ParseValue(t, depth).value.1 && DenotesValue(inner, ParseValue(t, depth).value.0)
    decreases |t|, -1
  {
    hide ParseMembers, DenotesMembers, SkipSpace, Ordered;
    NotSkipped(t);
    EmptyIsOrdered();
    var a := SkipSpace(t[1..]);
    var before := SkippedIsBlank(t[1..]);
    var body;
    if Starts(a, '}') {
      body := before;
      BlankIsNothing(body);
      assert t == ['{'] + (body + (['}'] + a[1..])) && Sorts([], []);
    } else {
      var text, members := MembersDenote(a, depth + 1, []);
      body := before + text;
      var (entries, rest) := ParseMembers(a, depth + 1, []).value;
      MembersAfterBlank(before, text, members);
      assert t == ['{'] + (body + (['}'] + rest)) && Sorts(members, entries);
    }
    inner := ['{'] + body + ['}'];
    assert Inside(inner) == body;
  }

  lemma KeyAfterBlank(before: string, s: string, m: Member)
    requires IsBlank(before) && DenotesMember(s, m)
    ensures DenotesMember(before + s, m)
  {
    hide Denotes, DenotesKey;
    var n :| 0 <= n < |s| && s[n] == ':' && DenotesKey(s[..n], m.key) && Denotes(s[n + 1..], m.value);
    var all, k := before + s, |before| + n;
    SpaceBeforeKey(before, s[..n], m.key);
    assert all[..k] == before + s[..n] && all[k] == ':' && all[k + 1..] == s[n + 1..];
  }

  lemma SpaceBeforeKey(before: string, s: string, key: string)
    requires IsBlank(before) && DenotesKey(s, key)
    ensures DenotesKey(before + s, key)
  {
    hide DenotesString;
    var b, inner, after :| Spaced(s, b, inner, after) && DenotesString(inner, key);
    assert before + s == (before + b) + (inner + after);
    assert Spaced(before + s, before + b, inner, after);
  }

  lemma MembersAfterBlank(before: string, s: string, members: seq<Member>)
    requires IsBlank(before) && members != [] && DenotesMembers(s, members)
    ensures DenotesMembers(before + s, members)
  {
    hide DenotesMember;
    if |members| == 1 {
      KeyAfterBlank(before, s, members[0]);
    } else {
      var n := MembersCut(s, members);
      hide DenotesMembers;
      KeyAfterBlank(before, s[..n], members[0]);
      MoreMembers(before + s[..n], s[n + 1..], members);
      AtComma(before, s, n);
    }
  }

  lemma MoreMembers(first: string, more: string, members: seq<Member>)
    requires |members| > 1 && DenotesMember(first, members[0]) && DenotesMembers(more, members[1..])
    ensures DenotesMembers(first + ([','] + more), members)
  {
    hide DenotesMember;
    var s, n := first + ([','] + more), |first|;
    assert s[..n] == first && s[n] == ',' && s[n + 1..] == more;
  }

  lemma KeyDenotes(s: string) returns (body: string)
    requires ParseKey(s).Ok?
    ensures s == body + ([':'] + ParseKey(s).value.1) && DenotesKey(body, ParseKey(s).value.0)
  {
    hide ParseString, DenotesString;
    var before := SkippedIsBlank(s);
    var inner := StringDenotes(SkipSpace(s));
    var after := SkippedIsBlank(ParseString(SkipSpace(s)).value.1);
    body := before + (inner + after);
    assert Spaced(body, before, inner, after);
  }

  lemma MemberDenotes(s: string, depth: nat) returns (body: string)
    requires ParseKey(s).Ok? && ParseValue(ParseKey(s).value.1, depth).Ok?
    ensures var (key, a) := ParseKey(s).value;
            var (value, b) := ParseValue(a, depth).value;
            s == body + SkipSpace(b) && DenotesMember(body, Member(key, value))
    decreases |s|, 2
  {
    hide ParseKey, ParseValue, DenotesKey, Denotes;
    var (key, a) := ParseKey(s).value;
    var first := KeyDenotes(s);
    var second := SpacedDenotes(a, depth);
    body := first + ([':'] + second);
    assert body[..|first|] == first && body[|first|] == ':' && body[|first| + 1..] == second;
  }

  lemma {:induction false} MembersDenote(s: string, depth: nat, done: seq<Member>)
    returns (body: string, members: seq<Member>)
    requires Ordered(done) && ParseMembers(s, depth, done).Ok?
    ensures var (entries, rest) := ParseMembers(s, depth, done).value;
            && s == body + (['}'] + rest) && members != [] && DenotesMembers(body, members)
            && Ordered(entries) && multiset(entries) == multiset(done) + multiset(members)
    decreases |s|, 3
  {
    hide ParseKey, ParseValue, DenotesMember, Insert, Ordered;
    var (key, a) := ParseKey(s).value;
    var (value, b) := ParseValue(a, depth).value;
    var m := Member(key, value);
    var first := MemberDenotes(s, depth);
    InsertAddsOne(done, m);
    var joined := Insert(done, key, value).value;
    var c := SkipSpace(b);
    if Starts(c, '}') {
      body, members := first, [m];
    } else {
      var text, others := MembersDenote(c[1..], depth, joined);
      body, members := first + ([','] + text), [m] + others;
      hide ParseMembers, DenotesMembers;
      MoreMembers(first, text, members);
      FirstMember(members);
    }
  }

  // ----- Main results

  /** The parser accepts a text exactly when the grammar gives it a value that
      is not nested too deeply, and then answers that value. */
  lemma ParsesWhatItDenotes(s: string, value: Value)
    ensures Parse(s) == Ok(value) <==> Denotes(s, value) && Within(value, MAX_DEPTH)
  {
    hide Denotes, ParseValue, Within;
    if Denotes(s, value) && Within(value, MAX_DEPTH) {
      var after := SpacedParses(s, value, [], 0);
      assert s + [] == s;
    }
    if Parse(s) == Ok(value) {
      ParsedIsWellFormed(s, 0);
      var body := SpacedDenotes(s, 0);
      assert body + [] == body;
    }
  }

  /** A text denotes at most one value of that depth. */
  lemma DenotesOnce(s: string, v: Value, w: Value)
    requires Denotes(s, v) && Within(v, MAX_DEPTH) && Denotes(s, w) && Within(w, MAX_DEPTH)
    ensures v == w
  {
    ParsesWhatItDenotes(s, v);
    ParsesWhatItDenotes(s, w);
  }

  /** Both printed forms of a value denote it. */
  lemma PrintedDenotes(value: Value)
    requires WellFormed(value) && Within(value, MAX_DEPTH)
    ensures Denotes(Encode(value), value) && Denotes(Pretty(value), value)
  {
    hide Denotes, Print, Parse;
    RoundTrip(false, value);
    RoundTrip(true, value);
    ParsesWhatItDenotes(Encode(value), value);
    ParsesWhatItDenotes(Pretty(value), value);
  }
}
