/**
  Masking texts and JSON values: every registered secret and its escaped form in
  turn, in the strings and the keys of a value.
 */
module Masking {
  import opened Json
  import JsonRoundTrip
  import opened Strings
  import opened Wrappers

  const MARK: string := "[redacted]"

  ghost predicate Usable(patterns: seq<string>) {
    forall k | 0 <= k < |patterns| :: patterns[k] != []
  }

  /** Every leftmost, non-overlapping occurrence of one pattern replaced. */
  function Replaced(pattern: string, text: string): string
    requires pattern != []
    decreases |text|
  {
    if text == [] then []
    else if pattern <= text then MARK + Replaced(pattern, text[|pattern|..])
    else [text[0]] + Replaced(pattern, text[1..])
  }

  /** Each pattern in turn, on what the earlier ones left. */
  function MaskText(patterns: seq<string>, text: string): string
    requires Usable(patterns)
    decreases |patterns|
  {
    if patterns == [] then text else MaskText(patterns[1..], Replaced(patterns[0], text))
  }

  method MaskedText(patterns: seq<string>, original: string) returns (text: string)
    requires Usable(patterns)
    ensures text == MaskText(patterns, original)
  {
    hide Replaced, Contains;
    text := original;
    assert patterns[0..] == patterns;
    for k := 0 to |patterns|
      invariant Usable(patterns[k..]) && MaskText(patterns, original) == MaskText(patterns[k..], text)
    {
      assert patterns[k..][0] == patterns[k] && patterns[k..][1..] == patterns[k + 1..];
      var found := Occurs(patterns[k], text);
      if found {
        text := Replaced(patterns[k], text);
      } else {
        NothingReplaced(patterns[k], text);
      }
    }
  }

  method Occurs(pattern: string, text: string) returns (found: bool)
    ensures found <==> Contains(text, pattern)
  {
    return Find(text, pattern, 0).Some?;
  }

  // ----- What a masked text looks like

  lemma ContainsLater(text: string, pattern: string, n: nat)
    requires n <= |text| && Contains(text[n..], pattern)
    ensures Contains(text, pattern)
  {
    var k: nat :| k <= |text[n..]| && OccursAt(text[n..], pattern, k);
    assert text[n..][k..k + |pattern|] == text[n + k..n + k + |pattern|];
    assert OccursAt(text, pattern, n + k);
  }

  lemma ContainsAtFront(text: string, pattern: string)
    requires pattern <= text
    ensures Contains(text, pattern)
  {
    assert text[0..0 + |pattern|] == pattern;
    assert OccursAt(text, pattern, 0);
  }

  lemma FirstOrLater(text: string, pattern: string)
    requires Contains(text, pattern) && !(pattern <= text)
    ensures text != [] && Contains(text[1..], pattern)
  {
    var k: nat :| k <= |text| && OccursAt(text, pattern, k);
    assert |pattern| <= |text| && text[0..|pattern|] <= text;
    assert k > 0;
    var j := k - 1;
    assert text[1..][j..j + |pattern|] == text[1 + j..1 + j + |pattern|];
    assert OccursAt(text[1..], pattern, j);
  }

  /** A pattern that does not occur changes nothing. */
  lemma {:induction false} NothingReplaced(pattern: string, text: string)
    requires pattern != [] && !Contains(text, pattern)
    ensures Replaced(pattern, text) == text
    decreases |text|
  {
    hide Contains;
    if text != [] {
      if pattern <= text {
        ContainsAtFront(text, pattern);
      } else if Contains(text[1..], pattern) {
        ContainsLater(text, pattern, 1);
      } else {
        NothingReplaced(pattern, text[1..]);
      }
    }
  }

  /** One that occurs leaves the mark. */
  lemma {:induction false} ReplacedIsMarked(pattern: string, text: string)
    requires pattern != [] && Contains(text, pattern)
    ensures Contains(Replaced(pattern, text), MARK)
    decreases |text|
  {
    hide Contains, MARK;
    if pattern <= text {
      ContainsAtFront(Replaced(pattern, text), MARK);
    } else {
      FirstOrLater(text, pattern);
      ReplacedIsMarked(pattern, text[1..]);
      assert Replaced(pattern, text)[1..] == Replaced(pattern, text[1..]);
      ContainsLater(Replaced(pattern, text), MARK, 1);
    }
  }

  lemma {:induction false} MarkStays(patterns: seq<string>, text: string)
    requires Usable(patterns) && Contains(text, MARK)
    ensures Contains(MaskText(patterns, text), MARK)
    decreases |patterns|
  {
    hide Contains, MARK, Replaced;
    if patterns != [] {
      if Contains(text, patterns[0]) {
        ReplacedIsMarked(patterns[0], text);
      } else {
        NothingReplaced(patterns[0], text);
      }
      MarkStays(patterns[1..], Replaced(patterns[0], text));
    }
  }

  /** Masking leaves a text as it is, or a text with the mark in it. */
  lemma {:induction false} MaskedIsMarked(patterns: seq<string>, text: string)
    requires Usable(patterns)
    ensures MaskText(patterns, text) == text || Contains(MaskText(patterns, text), MARK)
    decreases |patterns|
  {
    hide Contains, MARK, Replaced;
    if patterns != [] {
      if Contains(text, patterns[0]) {
        ReplacedIsMarked(patterns[0], text);
        MarkStays(patterns[1..], Replaced(patterns[0], text));
      } else {
        NothingReplaced(patterns[0], text);
        MaskedIsMarked(patterns[1..], text);
      }
    }
  }

  predicate Kept(patterns: seq<string>, text: string)
    requires Usable(patterns)
  {
    MaskText(patterns, text) == text
  }

  /** Without the mark in it, a text is kept exactly when no pattern occurs. */
  lemma {:induction false} KeptMeans(patterns: seq<string>, text: string)
    requires Usable(patterns) && !Contains(text, MARK)
    ensures Kept(patterns, text) <==> forall k | 0 <= k < |patterns| :: !Contains(text, patterns[k])
    decreases |patterns|
  {
    hide Contains, MARK, Replaced;
    if patterns != [] {
      if Contains(text, patterns[0]) {
        ReplacedIsMarked(patterns[0], text);
        MarkStays(patterns[1..], Replaced(patterns[0], text));
      } else {
        NothingReplaced(patterns[0], text);
        KeptMeans(patterns[1..], text);
        assert forall k | 0 < k < |patterns| :: patterns[k] == patterns[1..][k - 1];
      }
    }
  }

  lemma {:induction false} MarkReplacesItself(text: string)
    ensures Replaced(MARK, text) == text
    decreases |text|
  {
    hide MARK;
    assert MARK != [] by {
      MarkIsText();
    }
    if text != [] {
      if MARK <= text {
        MarkReplacesItself(text[|MARK|..]);
        assert text == MARK + text[|MARK|..];
      } else {
        MarkReplacesItself(text[1..]);
      }
    }
  }

  lemma MarkIsText()
    ensures |MARK| == 10 && MARK[0] == '['
  {
  }

  /** With the mark in it, it is kept when no pattern but the mark itself
      occurs. */
  lemma {:induction false} KeptWithMark(patterns: seq<string>, text: string)
    requires Usable(patterns)
    requires forall k | 0 <= k < |patterns| :: patterns[k] == MARK || !Contains(text, patterns[k])
    ensures Kept(patterns, text)
    decreases |patterns|
  {
    hide Contains, MARK, Replaced;
    if patterns != [] {
      if patterns[0] == MARK {
        MarkReplacesItself(text);
      } else {
        NothingReplaced(patterns[0], text);
      }
      assert forall k | 0 < k < |patterns| :: patterns[k] == patterns[1..][k - 1];
      KeptWithMark(patterns[1..], text);
    }
  }

  /** But not only then: two secrets may undo each other around a mark. */
  lemma UndoneMask()
    ensures var a, b := "[[redacted", "redacted]]";
            Kept([a, a, b, b], "[[redacted]") && Contains("[[redacted]", a)
  {
    var a, b := "[[redacted", "redacted]]";
    var text, other := "[[redacted]", "[redacted]]";
    AroundMark();
    hide MARK, Replaced, Contains;
    ContainsAtFront(text, a);
    ReplacedOnce(a, "]");
    NotReplaced(a, other);
    ReplacedLater(b, other);
    assert other[1..] == b + [];
    ReplacedOnce(b, []);
    assert MARK + [] == MARK;
    NotReplaced(b, text);
    MaskTwice(a, b, text, other);
  }

  lemma AroundMark()
    ensures var a, b, text, other := "[[redacted", "redacted]]", "[[redacted]", "[redacted]]";
            && |a| == 10 && |b| == 10 && a[0] == '[' && a[1] == '[' && b[0] == 'r'
            && text == a + "]" && text == "[" + MARK && other == MARK + "]" && other == "[" + b
            && text[0] == '[' && text[1] == '[' && other[1] == 'r'
  {
  }

  lemma ReplacedOnce(pattern: string, after: string)
    requires pattern != [] && |after| < |pattern|
    ensures Replaced(pattern, pattern + after) == MARK + after
  {
    hide MARK;
    assert (pattern + after)[|pattern|..] == after;
    TooShort(pattern, after);
  }

  lemma ReplacedLater(pattern: string, text: string)
    requires pattern != [] && text != [] && !(pattern <= text)
    ensures Replaced(pattern, text) == [text[0]] + Replaced(pattern, text[1..])
  {
    hide MARK;
  }

  lemma NotReplaced(pattern: string, text: string)
    requires |pattern| > 1 && 1 < |text| < |pattern| + 2
    requires pattern[0] != text[1] && (pattern[0] != text[0] || pattern[1] != text[1])
    ensures Replaced(pattern, text) == text
  {
    hide Replaced, MARK;
    ReplacedLater(pattern, text);
    ReplacedLater(pattern, text[1..]);
    assert text[1..][1..] == text[2..];
    TooShort(pattern, text[2..]);
    assert text == [text[0]] + text[1..] && text[1..] == [text[1]] + text[2..];
  }

  lemma {:induction false} TooShort(pattern: string, text: string)
    requires pattern != [] && |text| < |pattern|
    ensures Replaced(pattern, text) == text
  {
    if text != [] {
      TooShort(pattern, text[1..]);
    }
  }

  lemma MaskTwice(a: string, b: string, text: string, other: string)
    requires a != [] && b != []
    requires Replaced(a, text) == other == Replaced(a, other) && Replaced(b, other) == text == Replaced(b, text)
    ensures MaskText([a, a, b, b], text) == text
  {
    hide Replaced;
    var none: seq<string> := [];
    assert [a, a, b, b][1..] == [a, b, b] && [a, b, b][1..] == [b, b] && [b, b][1..] == [b] && [b][1..] == none;
    assert MaskText([b], text) == MaskText(none, text) == text;
    assert MaskText([b, b], other) == MaskText([b], text);
    assert MaskText([a, b, b], other) == MaskText([b, b], other);
  }

  // ----- Values

  /** The entries in key order with this one put in, in the place of another of
      its key. */
  function Put(entries: seq<Member>, key: string, value: Value): seq<Member> {
    if entries == [] then [Member(key, value)]
    else if entries[0].key == key then [Member(key, value)] + entries[1..]
    else if Less(key, entries[0].key) then [Member(key, value)] + entries
    else [entries[0]] + Put(entries[1..], key, value)
  }

  function MaskValue(patterns: seq<string>, value: Value): Value
    requires Usable(patterns)
    decreases value
  {
    match value
    case String(text) => String(MaskText(patterns, text))
    case Array(values) =>
      Array(seq(|values|, k requires 0 <= k < |values| => MaskValue(patterns, values[k])))
    case Object(entries) => Object(MaskEntries(patterns, entries))
    case _ => value
  }

  /** The entries with keys and values masked; of equal keys the last stays. */
  function MaskEntries(patterns: seq<string>, entries: seq<Member>): seq<Member>
    requires Usable(patterns)
    decreases entries
  {
    if entries == [] then []
    else
      var last := entries[|entries| - 1];
      var earlier := MaskEntries(patterns, entries[..|entries| - 1]);
      Put(earlier, MaskText(patterns, last.key), MaskValue(patterns, last.value))
  }

  function Masked(patterns: seq<string>, value: Value): Value
    requires Usable(patterns)
  {
    if patterns == [] then value else MaskValue(patterns, value)
  }

  ghost predicate AllAbove(key: string, entries: seq<Member>) {
    forall k | 0 <= k < |entries| :: Less(key, entries[k].key)
  }

  lemma OrderedRest(entries: seq<Member>)
    requires Ordered(entries) && entries != []
    ensures Ordered(entries[1..]) && AllAbove(entries[0].key, entries[1..])
  {
    hide Less;
  }

  lemma OrderedFirst(m: Member, rest: seq<Member>)
    requires Ordered(rest) && AllAbove(m.key, rest)
    ensures Ordered([m] + rest)
  {
    hide Less;
  }

  lemma StillAbove(key: string, lower: string, entries: seq<Member>)
    requires Less(key, lower) && AllAbove(lower, entries)
    ensures AllAbove(key, entries)
  {
    forall k | 0 <= k < |entries|
      ensures Less(key, entries[k].key)
    {
      JsonRoundTrip.LessIsTransitive(key, lower, entries[k].key);
    }
  }

  /** Putting an entry in keeps the order, and adds nothing else. */
  lemma {:induction false} PutKeepsOrder(entries: seq<Member>, key: string, value: Value)
    requires Ordered(entries)
    ensures Ordered(Put(entries, key, value))
    ensures forall m | m in Put(entries, key, value) :: m == Member(key, value) || m in entries
    ensures forall low | AllAbove(low, entries) && Less(low, key) :: AllAbove(low, Put(entries, key, value))
    decreases |entries|
  {
    hide Ordered, Less;
    var m := Member(key, value);
    if entries == [] {
      NothingToOrder();
      OrderedFirst(m, []);
      assert [m] + [] == [m];
    } else {
      var first, rest := entries[0], entries[1..];
      OrderedRest(entries);
      JsonRoundTrip.LessIsTotal(first.key, key);
      if first.key == key {
        OrderedFirst(m, rest);
      } else if Less(key, first.key) {
        StillAbove(key, first.key, rest);
        OrderedFirst(m, entries);
      } else {
        PutKeepsOrder(rest, key, value);
        OrderedFirst(first, Put(rest, key, value));
      }
    }
  }

  /** A masked value keeps its numbers, the order of its keys and its depth. */
  lemma {:induction false} MaskKeepsForm(patterns: seq<string>, value: Value, limit: int)
    requires Usable(patterns) && WellFormed(value) && Within(value, limit)
    ensures WellFormed(MaskValue(patterns, value)) && Within(MaskValue(patterns, value), limit)
    decreases value
  {
    hide MaskText, Ordered;
    match value
    case Array(values) =>
      forall k | 0 <= k < |values|
        ensures WellFormed(MaskValue(patterns, values[k])) && Within(MaskValue(patterns, values[k]), limit - 1)
      {
        MaskKeepsForm(patterns, values[k], limit - 1);
      }
    case Object(entries) =>
      EntriesKeepForm(patterns, entries, limit - 1);
    case _ =>
  }

  lemma {:induction false} EntriesKeepForm(patterns: seq<string>, entries: seq<Member>, limit: int)
    requires Usable(patterns)
    requires forall k | 0 <= k < |entries| :: WellFormed(entries[k].value) && Within(entries[k].value, limit)
    ensures Ordered(MaskEntries(patterns, entries))
    ensures forall m | m in MaskEntries(patterns, entries) :: WellFormed(m.value) && Within(m.value, limit)
    decreases entries
  {
    hide MaskText, MaskValue, WellFormed, Within, Put, Ordered;
    if entries == [] {
      NothingToOrder();
    } else {
      var n := |entries| - 1;
      EntriesKeepForm(patterns, entries[..n], limit);
      MaskKeepsForm(patterns, entries[n].value, limit);
      PutKeepsOrder(MaskEntries(patterns, entries[..n]), MaskText(patterns, entries[n].key),
                    MaskValue(patterns, entries[n].value));
    }
  }

  lemma NothingToOrder()
    ensures Ordered([])
  {
  }

  /** So its text is read back. */
  lemma MaskedReadsBack(patterns: seq<string>, value: Value)
    requires Usable(patterns) && WellFormed(value) && Within(value, MAX_DEPTH)
    ensures Parse(Encode(Masked(patterns, value))) == Ok(Masked(patterns, value))
  {
    hide MaskValue, WellFormed, Within, Parse, Print;
    MaskKeepsForm(patterns, value, MAX_DEPTH);
    JsonRoundTrip.RoundTrip(false, Masked(patterns, value));
  }
}
