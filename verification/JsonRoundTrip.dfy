/**
  Printing and parsing are inverse: every well-formed value within the depth
  limit survives both layouts, and whatever parses is such a value.
 */
module JsonRoundTrip {
  import opened Wrappers
  import opened Json

  // ----- Keys

  lemma {:induction false} LessIsTotal(a: string, b: string)
    ensures Less(a, b) || a == b || Less(b, a)
    ensures !(Less(a, b) && Less(b, a)) && !Less(a, a)
    decreases |a|
  {
    if a != [] && b != [] {
      LessIsTotal(a[1..], b[1..]);
      if a[0] == b[0] {
        assert a == [a[0]] + a[1..] && b == [b[0]] + b[1..];
      }
    }
    if a != [] {
      LessIsTotal(a[1..], a[1..]);
    }
  }

  lemma {:induction false} LessIsTransitive(a: string, b: string, c: string)
    requires Less(a, b) && Less(b, c)
    ensures Less(a, c)
    decreases |a|
  {
    if a != [] && a[0] == b[0] == c[0] {
      LessIsTransitive(a[1..], b[1..], c[1..]);
    }
  }

  ghost predicate HasKey(entries: seq<Member>, key: string) {
    exists k | 0 <= k < |entries| :: entries[k].key == key
  }

  /** Insertion fails on a known key only; otherwise it adds just this member. */
  lemma {:induction false} InsertAdds(entries: seq<Member>, key: string, value: Value) returns (at: nat)
    requires Ordered(entries)
    ensures HasKey(entries, key) ==> Insert(entries, key, value) == None
    ensures !HasKey(entries, key) ==>
              && at <= |entries|
              && Insert(entries, key, value) == Some(entries[..at] + [Member(key, value)] + entries[at..])
              && (forall k | 0 <= k < at :: Less(entries[k].key, key))
              && (forall k | at <= k < |entries| :: Less(key, entries[k].key))
    decreases |entries|
  {
    at := 0;
    if entries == [] {
      assert entries[..0] + [Member(key, value)] + entries[0..] == [Member(key, value)];
    } else {
      LessIsTotal(entries[0].key, key);
      LessIsTotal(entries[0].key, entries[0].key);
      var rest := entries[1..];
      assert forall k | 0 < k < |entries| :: entries[k] == rest[k - 1];
      assert HasKey(entries, key) <==> entries[0].key == key || HasKey(rest, key);
      if entries[0].key != key {
        if Less(key, entries[0].key) {
          forall k | 0 < k < |entries|
            ensures Less(key, entries[k].key) && entries[k].key != key
          {
            LessIsTransitive(key, entries[0].key, entries[k].key);
            LessIsTotal(key, entries[k].key);
          }
          assert entries[..0] + [Member(key, value)] + entries[0..] == [Member(key, value)] + entries;
        } else {
          var n := InsertAdds(rest, key, value);
          at := n + 1;
          if n <= |rest| {
            assert entries[..at] + [Member(key, value)] + entries[at..]
                == [entries[0]] + (rest[..n] + [Member(key, value)] + rest[n..]);
          }
        }
      }
    }
  }

  lemma InsertKeepsOrder(entries: seq<Member>, key: string, value: Value)
    requires Ordered(entries) && Insert(entries, key, value).Some?
    ensures Ordered(Insert(entries, key, value).value)
    ensures forall m | m in Insert(entries, key, value).value :: m in entries || m == Member(key, value)
  {
    var at := InsertAdds(entries, key, value);
    var joined := Insert(entries, key, value).value;
    assert joined == entries[..at] + [Member(key, value)] + entries[at..];
  }

  /** A key above all others goes to the end. */
  lemma {:induction false} InsertLast(entries: seq<Member>, m: Member)
    requires Ordered(entries + [m])
    ensures Insert(entries, m.key, m.value) == Some(entries + [m])
    decreases |entries|
  {
    if entries != [] {
      var all := entries + [m];
      assert Less(all[0].key, all[|entries|].key);
      LessIsTotal(entries[0].key, m.key);
      assert entries[1..] + [m] == all[1..];
      InsertLast(entries[1..], m);
      assert [entries[0]] + (entries[1..] + [m]) == entries + [m];
    } else {
      assert entries + [m] == [m];
    }
  }

  // ----- Numbers

  /** Characters that could extend a number. */
  predicate NumberChar(c: char) { IsDigit(c) || c in ".eE+-" }

  /** A number may end before this text. */
  ghost predicate Ends(rest: string) { rest == [] || !NumberChar(rest[0]) }

  lemma {:induction false} DigitsReadBack(digits: string, rest: string)
    requires AllDigits(digits) && (rest == [] || !IsDigit(rest[0]))
    ensures SkipDigits(digits + rest) == rest
    ensures digits != [] ==> AfterDigits(digits + rest) == Some(rest)
  {
    if digits == [] {
      assert digits + rest == rest;
    } else {
      assert (digits + rest)[1..] == digits[1..] + rest;
      DigitsReadBack(digits[1..], rest);
    }
  }

  lemma {:induction false} SkippedAreDigits(s: string)
    ensures var n := |s| - |SkipDigits(s)|; AllDigits(s[..n]) && SkipDigits(s) == s[n..]
  {
    if s != [] && IsDigit(s[0]) {
      SkippedAreDigits(s[1..]);
      var n := |s[1..]| - |SkipDigits(s[1..])|;
      assert s[..n + 1] == [s[0]] + s[1..][..n];
    }
  }

  lemma WholeReadsBack(whole: string, rest: string)
    requires IsWhole(whole) && (rest == [] || !IsDigit(rest[0]))
    ensures AfterWhole(whole + rest) == Some(rest)
  {
    if whole == "0" {
      assert (whole + rest)[1..] == rest;
    } else {
      DigitsReadBack(whole, rest);
    }
  }

  lemma FractionReadsBack(fraction: string, rest: string)
    requires IsFraction(fraction) && (rest == [] || (!IsDigit(rest[0]) && rest[0] != '.'))
    ensures AfterFraction(fraction + rest) == Some(rest)
  {
    if fraction == [] {
      assert fraction + rest == rest;
    } else {
      DigitsReadBack(fraction[1..], rest);
      assert (fraction + rest)[1..] == fraction[1..] + rest;
    }
  }

  lemma ExponentReadsBack(exponent: string, rest: string)
    requires IsExponent(exponent) && Ends(rest)
    ensures AfterExponent(exponent + rest) == Some(rest)
  {
    if exponent == [] {
      assert exponent + rest == rest;
    } else {
      var s := exponent + rest;
      assert s[1..] == exponent[1..] + rest;
      if IsDigit(exponent[1]) {
        DigitsReadBack(exponent[1..], rest);
      } else {
        assert s[2..] == exponent[2..] + rest;
        DigitsReadBack(exponent[2..], rest);
      }
    }
  }

  lemma SignReadsBack(sign: string, rest: string)
    requires (sign == [] && (rest == [] || rest[0] != '-')) || sign == "-"
    ensures AfterSign(sign + rest) == rest
  {
    assert sign == [] ==> sign + rest == rest;
    assert sign == "-" ==> (sign + rest)[1..] == rest;
  }

  /** What the parts of a number may be followed by. */
  lemma PartsStart(sign: string, whole: string, fraction: string, exponent: string, rest: string)
    requires IsWhole(whole) && IsFraction(fraction) && IsExponent(exponent) && Ends(rest)
    ensures var c := exponent + rest; c == [] || (!IsDigit(c[0]) && c[0] != '.')
    ensures var b := fraction + (exponent + rest); b == [] || !IsDigit(b[0])
    ensures IsDigit((whole + (fraction + (exponent + rest)))[0])
  {
  }

  lemma NumberStarts(text: string)
    requires IsNumber(text)
    ensures text != [] && (text[0] == '-' || IsDigit(text[0]))
  {
    var sign, whole, fraction, exponent :| NumberParts(text, sign, whole, fraction, exponent);
    PartsStart(sign, whole, fraction, exponent, []);
    assert sign == [] ==> text[0] == whole[0];
  }

  lemma Regroup(a: string, b: string, c: string, d: string, e: string)
    ensures (a + (b + (c + d))) + e == a + (b + (c + (d + e)))
  {
    assert (c + d) + e == c + (d + e);
    assert (b + (c + d)) + e == b + ((c + d) + e);
  }

  lemma NumberStages(s: string, a: string, b: string, c: string, rest: string)
    requires AfterSign(s) == a && AfterWhole(a) == Some(b)
    requires AfterFraction(b) == Some(c) && AfterExponent(c) == Some(rest)
    ensures |rest| < |s| && ParseNumber(s) == Ok((Number(s[..|s| - |rest|]), rest))
  {
    hide AfterSign, AfterWhole, AfterFraction, AfterExponent;
    assert ParseNumber(s).Ok?;
  }

  lemma NumberReadsBack(text: string, rest: string)
    requires IsNumber(text) && Ends(rest)
    ensures ParseNumber(text + rest) == Ok((Number(text), rest))
  {
    var sign, whole, fraction, exponent :| NumberParts(text, sign, whole, fraction, exponent);
    assert (text + rest)[..|text + rest| - |rest|] == text;
    Regroup(sign, whole, fraction, exponent, rest);
    hide *;
    var c := exponent + rest;
    var b := fraction + c;
    var a := whole + b;
    PartsStart(sign, whole, fraction, exponent, rest);
    SignReadsBack(sign, a);
    WholeReadsBack(whole, b);
    FractionReadsBack(fraction, c);
    ExponentReadsBack(exponent, rest);
    NumberStages(text + rest, a, b, c, rest);
  }

  lemma AfterDigitsGives(s: string)
    requires AfterDigits(s).Some?
    ensures var n := |s| - |AfterDigits(s).value|; 0 < n && AllDigits(s[..n]) && AfterDigits(s).value == s[n..]
  {
    SkippedAreDigits(s[1..]);
    var n := |s| - |AfterDigits(s).value|;
    assert s[..n] == [s[0]] + s[1..][..n - 1];
  }

  /** The same behind a point, or behind an `e` and its sign. */
  lemma AfterDigitsAt(s: string, skip: nat)
    requires skip <= |s| && AfterDigits(s[skip..]).Some?
    ensures var n := |s| - |AfterDigits(s[skip..]).value|;
            && skip < n && AllDigits(s[..n][skip..])
            && AfterDigits(s[skip..]).value == s[n..] && s == s[..n] + s[n..]
  {
    AfterDigitsGives(s[skip..]);
    hide AfterDigits;
    var n := |s| - |AfterDigits(s[skip..]).value|;
    assert s[..n][skip..] == s[skip..][..n - skip];
    assert s[skip..][n - skip..] == s[n..];
  }

  lemma ExponentGives(s: string) returns (exponent: string)
    requires AfterExponent(s).Some?
    ensures IsExponent(exponent) && s == exponent + AfterExponent(s).value
  {
    hide AfterDigits;
    if Starts(s, 'e') || Starts(s, 'E') {
      var skip := if Starts(s[1..], '+') || Starts(s[1..], '-') then 2 else 1;
      AfterDigitsAt(s, skip);
      exponent := s[..|s| - |AfterExponent(s).value|];
      assert exponent[0] == s[0] && exponent[1] == s[1] && s[1] == s[1..][0];
    } else {
      exponent := [];
    }
  }

  lemma FractionGives(s: string) returns (fraction: string)
    requires AfterFraction(s).Some?
    ensures IsFraction(fraction) && s == fraction + AfterFraction(s).value
  {
    hide AfterDigits;
    if Starts(s, '.') {
      AfterDigitsAt(s, 1);
      fraction := s[..|s| - |AfterFraction(s).value|];
      assert fraction[0] == s[0];
    } else {
      fraction := [];
    }
  }

  lemma WholeGives(s: string) returns (whole: string)
    requires AfterWhole(s).Some?
    ensures IsWhole(whole) && s == whole + AfterWhole(s).value
  {
    if Starts(s, '0') {
      whole := "0";
    } else {
      AfterDigitsGives(s);
      whole := s[..|s| - |AfterWhole(s).value|];
    }
  }

  lemma NumberGives(s: string)
    requires ParseNumber(s).Ok?
    ensures var (value, rest) := ParseNumber(s).value;
            value.Number? && IsNumber(value.digits) && s == value.digits + rest
  {
    hide AfterWhole, AfterFraction, AfterExponent, IsWhole, IsFraction, IsExponent;
    var t := AfterSign(s);
    var sign := if Starts(s, '-') then "-" else [];
    assert s == sign + t;
    hide AfterSign;
    var whole := WholeGives(t);
    var a := AfterWhole(t).value;
    var fraction := FractionGives(a);
    var b := AfterFraction(a).value;
    var exponent := ExponentGives(b);
    var rest := AfterExponent(b).value;
    NumberIsPrefix(s, sign, whole, fraction, exponent, rest);
  }

  lemma NumberIsPrefix(s: string, sign: string, whole: string, fraction: string, exponent: string, rest: string)
    requires s == sign + (whole + (fraction + (exponent + rest)))
    requires (sign == [] || sign == "-") && IsWhole(whole) && IsFraction(fraction) && IsExponent(exponent)
    ensures IsNumber(s[..|s| - |rest|]) && s == s[..|s| - |rest|] + rest
  {
    hide IsWhole, IsFraction, IsExponent;
    var digits := s[..|s| - |rest|];
    assert digits == sign + (whole + (fraction + exponent));
    assert NumberParts(digits, sign, whole, fraction, exponent);
  }

  // ----- Strings

  lemma HexReadsBack(n: nat)
    requires n < 16
    ensures HexValue(HexDigit(n)) == Some(n)
  {
  }

  lemma EscapeReadsBack(c: char, rest: string)
    requires Escaped(c) != [c]
    ensures |Escaped(c)| > 1 && Escaped(c)[0] == '\\'
    ensures ParseEscape(Escaped(c)[1..] + rest) == Ok((c, rest))
  {
    var e := Escaped(c)[1..];
    if |e| > 1 {
      var n := c as int;
      HexReadsBack(n / 16);
      HexReadsBack(n % 16);
      var s := e[1..] + rest;
      assert (e + rest)[1..] == s;
      HexRunOfFour(s, n);
      assert s[4..] == rest;
    } else {
      assert (e + rest)[1..] == rest;
    }
  }

  lemma HexRunOfFour(s: string, n: nat)
    requires |s| >= 4 && n < 32
    requires s[0] == '0' && s[1] == '0' && HexValue(s[2]) == Some(n / 16) && HexValue(s[3]) == Some(n % 16)
    ensures HexRun(s, 4, 0) == Ok((n, s[4..]))
  {
    assert HexRun(s, 4, 0) == HexRun(s[1..], 3, 0);
    assert HexRun(s[1..], 3, 0) == HexRun(s[1..][1..], 2, 0);
    assert s[1..][1..] == s[2..];
    assert HexRun(s[2..], 2, 0) == HexRun(s[2..][1..], 1, n / 16);
    assert s[2..][1..] == s[3..];
    assert HexRun(s[3..], 1, n / 16) == HexRun(s[3..][1..], 0, n / 16 * 16 + n % 16);
    assert s[3..][1..] == s[4..];
  }

  lemma CharReadsBack(c: char, tail: string)
    ensures ParseText(Escaped(c) + tail) == Prepend(c, ParseText(tail))
  {
    hide ParseEscape;
    var s := Escaped(c) + tail;
    if Escaped(c) == [c] {
      assert s[1..] == tail;
    } else {
      EscapeReadsBack(c, tail);
      assert s[1..] == Escaped(c)[1..] + tail;
    }
  }

  lemma {:induction false} TextReadsBack(text: string, rest: string)
    ensures ParseText(EscapedAll(text) + (['"'] + rest)) == Ok((text, rest))
  {
    hide ParseEscape, Escaped;
    var end := ['"'] + rest;
    if text == [] {
      assert EscapedAll(text) + end == end;
      assert end[1..] == rest;
    } else {
      hide ParseText;
      TextReadsBack(text[1..], rest);
      CharReadsBack(text[0], EscapedAll(text[1..]) + end);
      assert EscapedAll(text) + end == Escaped(text[0]) + (EscapedAll(text[1..]) + end);
      assert text == [text[0]] + text[1..];
    }
  }

  lemma StringReadsBack(text: string, rest: string)
    ensures ParseString(Quoted(text) + rest) == Ok((text, rest))
  {
    hide ParseText, EscapedAll;
    TextReadsBack(text, rest);
    assert Quoted(text) + rest == ['"'] + (EscapedAll(text) + (['"'] + rest));
  }

  // ----- Values

  /** A text the parser sees without skipping anything. */
  ghost predicate Opens(s: string) { s != [] && !IsSpace(s[0]) }

  lemma {:induction false} SpacesSkip(space: string, s: string)
    requires (forall k | 0 <= k < |space| :: IsSpace(space[k])) && Opens(s)
    ensures SkipSpace(space + s) == s
  {
    if space == [] {
      assert space + s == s;
    } else {
      assert (space + s)[1..] == space[1..] + s;
      SpacesSkip(space[1..], s);
    }
  }

  lemma GapSkips(pretty: bool, depth: nat, s: string)
    requires Opens(s)
    ensures SkipSpace(Gap(pretty, depth) + s) == s && SkipSpace(s) == s
    ensures Ends(s) ==> Ends(Gap(pretty, depth) + s)
  {
    SpacesSkip(Gap(pretty, depth), s);
  }

  lemma PrintOpens(pretty: bool, value: Value, depth: nat)
    requires WellFormed(value)
    ensures Opens(Print(pretty, value, depth))
    ensures var c := Print(pretty, value, depth)[0];
            match value
            case Null => c == 'n'
            case Bool(flag) => c == if flag then 't' else 'f'
            case Number(_) => c == '-' || IsDigit(c)
            case String(_) => c == '"'
            case Array(_) => c == '['
            case Object(_) => c == '{'
  {
    if value.Number? {
      NumberStarts(value.digits);
    }
  }

  lemma {:induction false} ValueReadsBack(pretty: bool, value: Value, indent: nat, depth: nat, rest: string)
    requires WellFormed(value) && Within(value, MAX_DEPTH - depth) && Ends(rest)
    ensures ParseValue(Print(pretty, value, indent) + rest, depth) == Ok((value, rest))
    decreases value, 1
  {
    PrintOpens(pretty, value, indent);
    var s := Print(pretty, value, indent) + rest;
    assert SkipSpace(s) == s;
    match value
    case Null => assert s[4..] == rest;
    case Bool(flag) => assert s[if flag then 4 else 5..] == rest;
    case Number(digits) =>
      NumberReadsBack(digits, rest);
    case String(text) => StringReadsBack(text, rest);
    case Array(values) => ArrayReadsBack(pretty, value, indent, depth, rest);
    case Object(entries) => ObjectReadsBack(pretty, value, indent, depth, rest);
  }

  lemma Bracketed(open: char, a: string, b: string, c: string, close: char, rest: string)
    ensures ([open] + a + b + c + [close]) + rest == [open] + (a + (b + (c + ([close] + rest))))
  {
    var tail := [close] + rest;
    assert ([open] + a + b + c + [close]) + rest == [open] + a + b + c + tail;
    assert [open] + a + b + c + tail == [open] + a + (b + (c + tail));
  }

  lemma ArrayOpens(space: string, items: string, depth: nat)
    requires depth <= MAX_DEPTH && SkipSpace(space + items) == items && !Starts(items, ']')
    requires ParseItems(items, depth + 1).Ok?
    ensures ParseValue(['['] + (space + items), depth)
         == Ok((Array(ParseItems(items, depth + 1).value.0), ParseItems(items, depth + 1).value.1))
  {
    hide ParseItems, ParseNumber, ParseString;
    var s := ['['] + (space + items);
    assert SkipSpace(s) == s && s[1..] == space + items;
  }

  lemma EmptyReadsBack(value: Value, pretty: bool, indent: nat, depth: nat, rest: string)
    requires depth <= MAX_DEPTH && (value == Array([]) || value == Object([]))
    ensures ParseValue(Print(pretty, value, indent) + rest, depth) == Ok((value, rest))
  {
    hide ParseItems, ParseMembers, ParseNumber, ParseString;
    var s := Print(pretty, value, indent) + rest;
    assert SkipSpace(s) == s && SkipSpace(s[1..]) == s[1..] && s[1..][1..] == rest;
  }

  lemma {:induction false} ArrayReadsBack(pretty: bool, value: Value, indent: nat, depth: nat, rest: string)
    requires value.Array? && WellFormed(value) && Within(value, MAX_DEPTH - depth)
    ensures ParseValue(Print(pretty, value, indent) + rest, depth) == Ok((value, rest))
    decreases value, 0
  {
    hide ParseValue, ParseItems, Gap;
    var values := value.values;
    if values == [] {
      EmptyReadsBack(value, pretty, indent, depth, rest);
    } else {
      var end := Gap(pretty, indent) + ([']'] + rest);
      var items := PrintItems(pretty, values, indent + 1) + end;
      assert Print(pretty, value, indent) + rest == ['['] + (Gap(pretty, indent + 1) + items) by {
        Bracketed('[', Gap(pretty, indent + 1), PrintItems(pretty, values, indent + 1), Gap(pretty, indent), ']', rest);
      }
      PrintOpens(pretty, values[0], indent + 1);
      GapSkips(pretty, indent + 1, items);
      ItemsReadBack(pretty, values, indent, depth + 1, rest);
      ArrayOpens(Gap(pretty, indent + 1), items, depth);
    }
  }

  /** One item and what is left after it. */
  lemma NextItem(s: string, depth: nat, value: Value, after: string)
    requires ParseValue(s, depth) == Ok((value, after))
    requires
      || Starts(SkipSpace(after), ']')
      || (Starts(SkipSpace(after), ',') && ParseItems(SkipSpace(after)[1..], depth).Ok?)
    ensures Starts(SkipSpace(after), ']') ==> ParseItems(s, depth) == Ok(([value], SkipSpace(after)[1..]))
    ensures Starts(SkipSpace(after), ',') ==>
              var (values, rest) := ParseItems(SkipSpace(after)[1..], depth).value;
              ParseItems(s, depth) == Ok(([value] + values, rest))
  {
  }

  lemma {:induction false} ItemsReadBack(pretty: bool, values: seq<Value>, indent: nat, depth: nat, rest: string)
    requires values != []
    requires forall k | 0 <= k < |values| :: WellFormed(values[k]) && Within(values[k], MAX_DEPTH - depth)
    ensures ParseItems(PrintItems(pretty, values, indent + 1) + (Gap(pretty, indent) + ([']'] + rest)), depth)
         == Ok((values, rest))
    decreases values, 2
  {
    hide ParseValue, Print, Gap, WellFormed, Within, ParseItems;
    var close := [']'] + rest;
    var end := Gap(pretty, indent) + close;
    var first := Print(pretty, values[0], indent + 1);
    var s := PrintItems(pretty, values, indent + 1) + end;
    if |values| == 1 {
      assert s == first + end;
      GapSkips(pretty, indent, close);
      ValueReadsBack(pretty, values[0], indent + 1, depth, end);
      NextItem(s, depth, values[0], end);
      assert close[1..] == rest && values == [values[0]];
    } else {
      var more := PrintItems(pretty, values[1..], indent + 1) + end;
      var after := [','] + (Gap(pretty, indent + 1) + more);
      assert s == first + after;
      ValueReadsBack(pretty, values[0], indent + 1, depth, after);
      ItemsReadBack(pretty, values[1..], indent, depth, rest);
      ItemsSkip(pretty, indent + 1, more, depth);
      assert SkipSpace(after) == after && after[1..] == Gap(pretty, indent + 1) + more;
      NextItem(s, depth, values[0], after);
      assert values == [values[0]] + values[1..];
    }
  }

  lemma SkippedTwice(s: string)
    ensures SkipSpace(SkipSpace(s)) == SkipSpace(s)
  {
  }

  /** Space ahead changes nothing. */
  lemma ValueAfterSpace(s: string, depth: nat)
    ensures ParseValue(s, depth) == ParseValue(SkipSpace(s), depth)
  {
    SkippedTwice(s);
    hide ParseLiteral, ParseNumber, ParseString, ParseItems, ParseMembers;
  }

  lemma ItemsAfterSpace(s: string, depth: nat)
    ensures ParseItems(s, depth) == ParseItems(SkipSpace(s), depth)
  {
    ValueAfterSpace(s, depth);
    hide ParseValue;
  }

  /** Leading space does not matter to what a list of values parses to. */
  lemma ItemsSkip(pretty: bool, indent: nat, s: string, depth: nat)
    ensures ParseItems(Gap(pretty, indent) + s, depth) == ParseItems(s, depth)
  {
    hide ParseItems, SkipSpace;
    GapIsSpace(pretty, indent);
    SpaceIsSkipped(Gap(pretty, indent), s);
    ItemsAfterSpace(s, depth);
    ItemsAfterSpace(Gap(pretty, indent) + s, depth);
  }

  lemma {:induction false} SpaceIsSkipped(space: string, s: string)
    requires forall k | 0 <= k < |space| :: IsSpace(space[k])
    ensures SkipSpace(space + s) == SkipSpace(s)
  {
    if space == [] {
      assert space + s == s;
    } else {
      assert (space + s)[1..] == space[1..] + s;
      SpaceIsSkipped(space[1..], s);
    }
  }

  lemma ObjectOpens(space: string, members: string, depth: nat)
    requires depth <= MAX_DEPTH && SkipSpace(space + members) == members && !Starts(members, '}')
    requires ParseMembers(members, depth + 1, []).Ok?
    ensures ParseValue(['{'] + (space + members), depth)
         == Ok((Object(ParseMembers(members, depth + 1, []).value.0), ParseMembers(members, depth + 1, []).value.1))
  {
    hide ParseMembers, ParseNumber, ParseString;
    var s := ['{'] + (space + members);
    assert SkipSpace(s) == s && s[1..] == space + members;
  }

  lemma {:induction false} ObjectReadsBack(pretty: bool, value: Value, indent: nat, depth: nat, rest: string)
    requires value.Object? && WellFormed(value) && Within(value, MAX_DEPTH - depth)
    ensures ParseValue(Print(pretty, value, indent) + rest, depth) == Ok((value, rest))
    decreases value, 0
  {
    hide ParseValue, ParseMembers, Gap, Quoted;
    var entries := value.entries;
    if entries == [] {
      EmptyReadsBack(value, pretty, indent, depth, rest);
    } else {
      var end := Gap(pretty, indent) + (['}'] + rest);
      var members := PrintMembers(pretty, entries, indent + 1) + end;
      assert Print(pretty, value, indent) + rest == ['{'] + (Gap(pretty, indent + 1) + members) by {
        Bracketed('{', Gap(pretty, indent + 1), PrintMembers(pretty, entries, indent + 1), Gap(pretty, indent), '}',
                  rest);
      }
      MembersOpen(pretty, entries, indent + 1);
      GapSkips(pretty, indent + 1, members);
      assert [] + entries == entries && [] + members == members;
      MembersReadBack(pretty, [], [], entries, indent, depth + 1, rest);
      ObjectOpens(Gap(pretty, indent + 1), members, depth);
    }
  }

  lemma MembersOpen(pretty: bool, entries: seq<Member>, indent: nat)
    requires entries != []
    ensures PrintMembers(pretty, entries, indent) != [] && PrintMembers(pretty, entries, indent)[0] == '"'
  {
  }

  lemma KeyReadsBack(pretty: bool, space: string, key: string, rest: string)
    requires forall k | 0 <= k < |space| :: IsSpace(space[k])
    requires Opens(rest)
    ensures ParseKey(space + (Quoted(key) + (Colon(pretty) + rest))).Ok?
    ensures var (k, r) := ParseKey(space + (Quoted(key) + (Colon(pretty) + rest))).value;
            k == key && SkipSpace(r) == rest
  {
    hide ParseString;
    var colon := Colon(pretty) + rest;
    SpacesSkip(space, Quoted(key) + colon);
    StringReadsBack(key, colon);
    assert SkipSpace(colon) == colon;
    SpacesSkip(if pretty then " " else [], rest);
    assert colon[1..] == (if pretty then " " else []) + rest;
  }

  /** Only the text after leading space matters to a value. */
  lemma ValueSkips(s: string, t: string, depth: nat)
    requires SkipSpace(s) == t && Opens(t)
    ensures ParseValue(s, depth) == ParseValue(t, depth)
  {
    assert SkipSpace(t) == t;
  }

  /** One member and what is left after it. */
  lemma NextMember(s: string, depth: nat, done: seq<Member>, m: Member, after: string)
    requires ParseKey(s).Ok? && ParseKey(s).value.0 == m.key
    requires ParseValue(ParseKey(s).value.1, depth) == Ok((m.value, after))
    requires Insert(done, m.key, m.value) == Some(done + [m])
    requires Starts(SkipSpace(after), '}') || Starts(SkipSpace(after), ',')
    ensures ParseMembers(s, depth, done)
         == if Starts(SkipSpace(after), '}') then Ok((done + [m], SkipSpace(after)[1..]))
            else ParseMembers(SkipSpace(after)[1..], depth, done + [m])
  {
    hide ParseValue, ParseKey, Insert;
  }

  function AfterMember(pretty: bool, entries: seq<Member>, indent: nat, end: string): string
    requires entries != []
  {
    if |entries| == 1 then end
    else [','] + (Gap(pretty, indent) + (PrintMembers(pretty, entries[1..], indent) + end))
  }

  lemma MemberFirst(pretty: bool, entries: seq<Member>, indent: nat, end: string)
    requires entries != []
    ensures PrintMembers(pretty, entries, indent) + end
         == Quoted(entries[0].key)
            + (Colon(pretty)
               + (Print(pretty, entries[0].value, indent) + AfterMember(pretty, entries, indent, end)))
  {
    var key, colon, first := Quoted(entries[0].key), Colon(pretty), Print(pretty, entries[0].value, indent);
    var more := if |entries| == 1 then [] else [','] + Gap(pretty, indent) + PrintMembers(pretty, entries[1..], indent);
    assert PrintMembers(pretty, entries, indent) == (key + colon + first) + more;
    assert more + end == AfterMember(pretty, entries, indent, end) by {
      hide Print, PrintMembers, Gap;
      if |entries| > 1 {
        Three([','], Gap(pretty, indent), PrintMembers(pretty, entries[1..], indent), end);
      }
    }
    Regroup(key, colon, first, more, end);
    assert key + colon + first + more == key + (colon + (first + more)) by {
      Three(key, colon, first, more);
    }
  }

  lemma Three(a: string, b: string, c: string, d: string)
    ensures (a + b + c) + d == a + (b + (c + d))
  {
    assert (b + c) + d == b + (c + d);
    assert a + b + c == a + (b + c);
  }

  lemma {:induction false} MembersReadBack(pretty: bool, space: string, done: seq<Member>, entries: seq<Member>,
                                           indent: nat, depth: nat, rest: string)
    requires forall k | 0 <= k < |space| :: IsSpace(space[k])
    requires entries != [] && Ordered(done + entries)
    requires forall k | 0 <= k < |entries| ::
               WellFormed(entries[k].value) && Within(entries[k].value, MAX_DEPTH - depth)
    ensures var end := Gap(pretty, indent) + (['}'] + rest);
            ParseMembers(space + (PrintMembers(pretty, entries, indent + 1) + end), depth, done)
            == Ok((done + entries, rest))
    decreases entries, 2
  {
    hide ParseValue, ParseKey, ParseMembers, Print, PrintMembers, Quoted, Gap, WellFormed, Within, Insert, Ordered,
         AfterMember, SkipSpace;
    var m := entries[0];
    var end := Gap(pretty, indent) + (['}'] + rest);
    var after := AfterMember(pretty, entries, indent + 1, end);
    var s := space + (PrintMembers(pretty, entries, indent + 1) + end);
    ValueReadsBack(pretty, m.value, indent + 1, depth, after) by {
      AfterMemberStarts(pretty, entries, indent, rest);
    }
    MemberReadsBack(pretty, space, entries, indent + 1, end, depth);
    OrderedPart(done, entries);
    InsertLast(done, m);
    AfterMemberStarts(pretty, entries, indent, rest);
    NextMember(s, depth, done, m, after);
    if |entries| == 1 {
      assert entries == [m];
    } else {
      assert (done + [m]) + entries[1..] == done + entries;
      GapIsSpace(pretty, indent + 1);
      MembersReadBack(pretty, Gap(pretty, indent + 1), done + [m], entries[1..], indent, depth, rest);
    }
  }

  lemma AfterMemberStarts(pretty: bool, entries: seq<Member>, indent: nat, rest: string)
    requires entries != []
    ensures var end := Gap(pretty, indent) + (['}'] + rest);
            var after := AfterMember(pretty, entries, indent + 1, end);
            && Ends(after) && SkipSpace(after) != []
            && (|entries| == 1 ==> SkipSpace(after)[0] == '}' && SkipSpace(after)[1..] == rest)
            && (|entries| > 1 ==>
                  && SkipSpace(after)[0] == ','
                  && SkipSpace(after)[1..] ==
                     Gap(pretty, indent + 1) + (PrintMembers(pretty, entries[1..], indent + 1) + end))
  {
    hide PrintMembers, Gap;
    GapSkips(pretty, indent, ['}'] + rest);
  }

  lemma OrderedPart(done: seq<Member>, entries: seq<Member>)
    requires entries != [] && Ordered(done + entries)
    ensures Ordered(done + [entries[0]])
  {
    assert done + [entries[0]] == (done + entries)[..|done| + 1];
  }

  lemma MemberReadsBack(pretty: bool, space: string, entries: seq<Member>, indent: nat, end: string, depth: nat)
    requires forall k | 0 <= k < |space| :: IsSpace(space[k])
    requires entries != [] && WellFormed(entries[0].value)
    ensures var first := Print(pretty, entries[0].value, indent) + AfterMember(pretty, entries, indent, end);
            var parsed := ParseKey(space + (PrintMembers(pretty, entries, indent) + end));
            parsed.Ok? && parsed.value.0 == entries[0].key
            && ParseValue(parsed.value.1, depth) == ParseValue(first, depth)
  {
    hide ParseValue, ParseKey, Print, PrintMembers, Quoted, Gap, WellFormed;
    var first := Print(pretty, entries[0].value, indent) + AfterMember(pretty, entries, indent, end);
    MemberFirst(pretty, entries, indent, end);
    PrintOpens(pretty, entries[0].value, indent);
    KeyReadsBack(pretty, space, entries[0].key, first);
    ValueSkips(ParseKey(space + (PrintMembers(pretty, entries, indent) + end)).value.1, first, depth);
  }

  lemma GapIsSpace(pretty: bool, indent: nat)
    ensures forall k | 0 <= k < |Gap(pretty, indent)| :: IsSpace(Gap(pretty, indent)[k])
  {
  }

  // ----- Whatever parses is such a value

  lemma {:induction false} ParsedIsWellFormed(s: string, depth: nat)
    ensures ParseValue(s, depth).Ok? ==>
              WellFormed(ParseValue(s, depth).value.0) && Within(ParseValue(s, depth).value.0, MAX_DEPTH - depth)
    decreases |s|, 0
  {
    hide ParseNumber, ParseString, ParseItems, ParseMembers, IsNumber;
    var t := SkipSpace(s);
    if ParseValue(s, depth).Ok? {
      if t[0] == '-' || IsDigit(t[0]) {
        NumberGives(t);
      } else if t[0] == '[' {
        var a := SkipSpace(t[1..]);
        if !Starts(a, ']') {
          ParsedItemsAreWellFormed(a, depth + 1);
        }
      } else if t[0] == '{' {
        var a := SkipSpace(t[1..]);
        if !Starts(a, '}') {
          ParsedMembersAreWellFormed(a, depth + 1, []);
        }
      }
    }
  }

  lemma {:induction false} ParsedItemsAreWellFormed(s: string, depth: nat)
    ensures ParseItems(s, depth).Ok? ==>
              && (forall v | v in ParseItems(s, depth).value.0 :: WellFormed(v) && Within(v, MAX_DEPTH - depth))
              && depth <= MAX_DEPTH
    decreases |s|, 1
  {
    hide WellFormed, Within;
    if ParseItems(s, depth).Ok? {
      ParsedIsWellFormed(s, depth);
      DepthIsChecked(s, depth);
      var b := SkipSpace(ParseValue(s, depth).value.1);
      if !Starts(b, ']') {
        ParsedItemsAreWellFormed(b[1..], depth);
      }
    }
  }

  lemma DepthIsChecked(s: string, depth: nat)
    ensures ParseValue(s, depth).Ok? ==> depth <= MAX_DEPTH
  {
  }

  lemma {:induction false} ParsedMembersAreWellFormed(s: string, depth: nat, entries: seq<Member>)
    requires Ordered(entries)
    requires forall m | m in entries :: WellFormed(m.value) && Within(m.value, MAX_DEPTH - depth)
    ensures ParseMembers(s, depth, entries).Ok? ==>
              && Ordered(ParseMembers(s, depth, entries).value.0)
              && (forall m | m in ParseMembers(s, depth, entries).value.0 ::
                    WellFormed(m.value) && Within(m.value, MAX_DEPTH - depth))
              && depth <= MAX_DEPTH
    decreases |s|, 1
  {
    hide WellFormed, Within, ParseValue, ParseKey, Insert, Ordered;
    if ParseMembers(s, depth, entries).Ok? {
      var (key, a) := ParseKey(s).value;
      var (value, b) := ParseValue(a, depth).value;
      ParsedIsWellFormed(a, depth);
      DepthIsChecked(a, depth);
      var joined := Insert(entries, key, value).value;
      InsertKeepsOrder(entries, key, value);
      var c := SkipSpace(b);
      if !Starts(c, '}') {
        ParsedMembersAreWellFormed(c[1..], depth, joined);
      }
    }
  }

  // ----- Main results

  lemma PrintedParses(pretty: bool, value: Value)
    requires WellFormed(value) && Within(value, MAX_DEPTH)
    ensures Parse(Print(pretty, value, 0)) == Ok(value)
  {
    ValueReadsBack(pretty, value, 0, 0, []);
    assert Print(pretty, value, 0) + [] == Print(pretty, value, 0);
  }

  lemma ParsedValues(s: string)
    ensures Parse(s).Ok? ==> WellFormed(Parse(s).value) && Within(Parse(s).value, MAX_DEPTH)
  {
    ParsedIsWellFormed(s, 0);
  }

  /** A value survives either layout exactly when its numbers follow the
      grammar, its keys ascend and it is not nested too deeply. */
  lemma RoundTrip(pretty: bool, value: Value)
    ensures Parse(Print(pretty, value, 0)) == Ok(value) <==> WellFormed(value) && Within(value, MAX_DEPTH)
  {
    if WellFormed(value) && Within(value, MAX_DEPTH) {
      PrintedParses(pretty, value);
    }
    ParsedValues(Print(pretty, value, 0));
  }

  /** Encoding what was parsed, in either layout, and parsing again changes nothing. */
  lemma ReencodingIsIdentity(s: string, pretty: bool)
    requires Parse(s).Ok?
    ensures Parse(Print(pretty, Parse(s).value, 0)) == Parse(s)
  {
    ParsedValues(s);
    PrintedParses(pretty, Parse(s).value);
  }

  // ----- The indented layout

  /** The text moved in by two blanks behind every line break. */
  function MovedIn(text: string): string {
    if text == [] then [] else MovedChar(text[0]) + MovedIn(text[1..])
  }

  function MovedChar(c: char): string { if c == '\n' then ['\n', ' ', ' '] else [c] }

  lemma {:induction false} MovedBoth(a: string, b: string)
    ensures MovedIn(a + b) == MovedIn(a) + MovedIn(b)
    decreases |a|
  {
    hide MovedChar;
    if a == [] {
      assert a + b == b;
    } else {
      MovedBoth(a[1..], b);
      assert (a + b)[1..] == a[1..] + b;
    }
  }

  lemma {:induction false} OneLine(text: string)
    requires '\n' !in text
    ensures MovedIn(text) == text
    decreases |text|
  {
    if text != [] {
      OneLine(text[1..]);
    }
  }

  lemma {:induction false} QuotedIsOneLine(text: string)
    ensures '\n' !in EscapedAll(text)
    decreases |text|
  {
    if text != [] {
      QuotedIsOneLine(text[1..]);
    }
  }

  lemma NumberIsOneLine(digits: string)
    requires IsNumber(digits)
    ensures '\n' !in digits
  {
    hide IsFraction, IsExponent, IsWhole;
    var sign, whole, fraction, exponent :| NumberParts(digits, sign, whole, fraction, exponent);
    PartsAreOneLine(whole, fraction, exponent);
  }

  lemma PartsAreOneLine(whole: string, fraction: string, exponent: string)
    requires IsWhole(whole) && IsFraction(fraction) && IsExponent(exponent)
    ensures '\n' !in whole && '\n' !in fraction && '\n' !in exponent
  {
  }

  lemma GapMoves(depth: nat)
    ensures MovedIn(Gap(true, depth)) == Gap(true, depth + 1)
  {
    var blanks := Spaces(2 * depth);
    OneLine(blanks);
    assert Gap(true, depth)[1..] == blanks;
    assert ['\n', ' ', ' '] + blanks == Gap(true, depth + 1);
  }

  /** One level deeper every line of the indented text begins two blanks further
      in, and nothing else changes. */
  lemma {:induction false} DeeperMovesIn(value: Value, depth: nat)
    requires WellFormed(value)
    ensures MovedIn(Print(true, value, depth)) == Print(true, value, depth + 1)
    decreases value, 1
  {
    match value
    case Null => OneLine("null");
    case Bool(flag) =>
      OneLine("true");
      OneLine("false");
    case Number(digits) =>
      NumberIsOneLine(digits);
      OneLine(digits);
    case String(text) =>
      QuotedMoves(text);
    case Array(values) =>
      if values == [] {
        OneLine("[]");
      } else {
        hide MovedIn, PrintItems, Gap;
        ItemsMoveIn(values, depth + 1);
        ContainerMoves('[', PrintItems(true, values, depth + 1), PrintItems(true, values, depth + 2), ']', depth);
      }
    case Object(entries) =>
      if entries == [] {
        OneLine("{}");
      } else {
        hide MovedIn, PrintMembers, Gap;
        MembersMoveIn(entries, depth + 1);
        ContainerMoves('{', PrintMembers(true, entries, depth + 1), PrintMembers(true, entries, depth + 2), '}', depth);
      }
  }

  lemma QuotedMoves(text: string)
    ensures MovedIn(Quoted(text)) == Quoted(text)
  {
    QuotedIsOneLine(text);
    OneLine(Quoted(text));
  }

  lemma ContainerMoves(open: char, inner: string, moved: string, close: char, depth: nat)
    requires MovedIn(inner) == moved && open != '\n' && close != '\n'
    ensures MovedIn([open] + Gap(true, depth + 1) + inner + Gap(true, depth) + [close]) ==
            [open] + Gap(true, depth + 2) + moved + Gap(true, depth + 1) + [close]
  {
    hide MovedIn, Gap;
    var a, b := Gap(true, depth + 1), Gap(true, depth);
    OneLine([open]);
    OneLine([close]);
    GapMoves(depth + 1);
    GapMoves(depth);
    MovedBoth([open] + a + inner + b, [close]);
    MovedBoth([open] + a + inner, b);
    MovedBoth([open] + a, inner);
    MovedBoth([open], a);
  }

  lemma {:induction false} ItemsMoveIn(values: seq<Value>, depth: nat)
    requires values != [] && forall k | 0 <= k < |values| :: WellFormed(values[k])
    ensures MovedIn(PrintItems(true, values, depth)) == PrintItems(true, values, depth + 1)
    decreases values, 0
  {
    hide MovedIn, Gap, WellFormed;
    DeeperMovesIn(values[0], depth);
    if |values| > 1 {
      ItemsMoveIn(values[1..], depth);
      CommaMoves(depth, PrintItems(true, values[1..], depth), PrintItems(true, values[1..], depth + 1));
      MovedBoth(Print(true, values[0], depth), [','] + Gap(true, depth) + PrintItems(true, values[1..], depth));
    } else {
      assert Print(true, values[0], depth) + [] == Print(true, values[0], depth);
      assert Print(true, values[0], depth + 1) + [] == Print(true, values[0], depth + 1);
    }
  }

  lemma CommaMoves(depth: nat, rest: string, moved: string)
    requires MovedIn(rest) == moved
    ensures MovedIn([','] + Gap(true, depth) + rest) == [','] + Gap(true, depth + 1) + moved
  {
    hide MovedIn, Gap;
    OneLine([',']);
    GapMoves(depth);
    MovedBoth([','] + Gap(true, depth), rest);
    MovedBoth([','], Gap(true, depth));
  }

  lemma {:induction false} MembersMoveIn(entries: seq<Member>, depth: nat)
    requires entries != [] && forall k | 0 <= k < |entries| :: WellFormed(entries[k].value)
    ensures MovedIn(PrintMembers(true, entries, depth)) == PrintMembers(true, entries, depth + 1)
    decreases entries, 0
  {
    hide MovedIn, Gap, WellFormed, Quoted, Print;
    var first := entries[0];
    DeeperMovesIn(first.value, depth);
    QuotedMoves(first.key);
    OneLine(": ");
    MovedBoth(Quoted(first.key) + ": ", Print(true, first.value, depth));
    MovedBoth(Quoted(first.key), ": ");
    if |entries| > 1 {
      MembersMoveIn(entries[1..], depth);
      CommaMoves(depth, PrintMembers(true, entries[1..], depth), PrintMembers(true, entries[1..], depth + 1));
      MovedBoth(PrintMember(true, first, depth), [','] + Gap(true, depth) + PrintMembers(true, entries[1..], depth));
    } else {
      assert PrintMember(true, first, depth) + [] == PrintMember(true, first, depth);
      assert PrintMember(true, first, depth + 1) + [] == PrintMember(true, first, depth + 1);
    }
  }

  /** The indented text of a list has a line for each value, moved in by two
      blanks, between the lines of its brackets. */
  lemma ListIsIndented(value: Value)
    requires WellFormed(value)
    ensures Pretty(Array([value])) == "[\n  " + MovedIn(Pretty(value)) + "\n]"
  {
    hide MovedIn;
    DeeperMovesIn(value, 0);
    assert [value][1..] == [];
    var inner := Print(true, value, 1);
    assert PrintItems(true, [value], 1) == inner + [] == inner;
    assert Gap(true, 1) == "\n  " && Gap(true, 0) == "\n";
    assert "[" + "\n  " == "[\n  ";
  }
}
