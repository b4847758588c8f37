/**
  Masking a text one pattern after the other while a cursor keeps its place.
 */
module RedactCursor {
  import opened ByteText
  import opened Redact

  /** Every leftmost, non-overlapping occurrence of one pattern replaced. */
  function Replaced(p: Bytes, text: Bytes): Bytes { Mask([p], text) }

  /** Each pattern in turn, on what the earlier ones left. */
  function MaskEach(patterns: seq<Bytes>, text: Bytes): Bytes
    decreases |patterns|
  {
    if patterns == [] then text else MaskEach(patterns[1..], Replaced(patterns[0], text))
  }

  lemma SingleMatch(p: Bytes, text: Bytes)
    requires p != []
    ensures MatchLength([p], text) == if p <= text then |p| else 0
  {
    assert MatchLength([p][1..], text) == 0;
  }

  lemma ReplacedFirst(p: Bytes, text: Bytes)
    requires p != [] && text != []
    ensures Replaced(p, text)
         == if p <= text then REDACTED + Replaced(p, text[|p|..]) else [text[0]] + Replaced(p, text[1..])
  {
    SingleMatch(p, text);
  }

  /** The cursor after one pattern is replaced: past an occurrence it shifts,
      inside one it lands behind the replacement. */
  function Moved(p: Bytes, text: Bytes, cursor: nat): nat
    requires p != [] && cursor <= |text|
    decreases |text|
  {
    if cursor == 0 || text == [] then 0
    else if p <= text then |REDACTED| + if cursor <= |p| then 0 else Moved(p, text[|p|..], cursor - |p|)
    else 1 + Moved(p, text[1..], cursor - 1)
  }

  /** No occurrence covers both sides of the cursor. */
  predicate Between(p: Bytes, text: Bytes, cursor: nat)
    requires p != [] && cursor <= |text|
    decreases |text|
  {
    cursor == 0 || text == []
    || if p <= text then cursor >= |p| && Between(p, text[|p|..], cursor - |p|) else Between(p, text[1..], cursor - 1)
  }

  /** Between occurrences, the text on either side is replaced on its own and
      the cursor stays where the two meet. */
  lemma {:induction false} CursorSplitsText(p: Bytes, text: Bytes, cursor: nat)
    requires p != [] && cursor <= |text| && Between(p, text, cursor)
    ensures Replaced(p, text) == Replaced(p, text[..cursor]) + Replaced(p, text[cursor..])
    ensures Moved(p, text, cursor) == |Replaced(p, text[..cursor])|
    decreases |text|
  {
    hide Mask, Replaced, REDACTED, Moved, Between;
    var left, right := text[..cursor], text[cursor..];
    if cursor == 0 || text == [] {
      assert left == [] && right == text;
      NothingReplaced(p, text);
    } else {
      var n := if p <= text then |p| else 1;
      CursorStep(p, text, cursor);
      PrefixMatch(p, text, cursor);
      CursorSplitsText(p, text[n..], cursor - n);
      assert text[n..][..cursor - n] == left[n..] && text[n..][cursor - n..] == right;
      HeadsReplaced(p, text, left, n);
    }
  }

  /** Past its first occurrence or byte, a cursor moves as in the rest. */
  lemma CursorStep(p: Bytes, text: Bytes, cursor: nat)
    requires p != [] && 0 < cursor <= |text| && Between(p, text, cursor)
    ensures var n := if p <= text then |p| else 1;
            && n <= cursor && Between(p, text[n..], cursor - n)
            && Moved(p, text, cursor) == (if p <= text then |REDACTED| else 1) + Moved(p, text[n..], cursor - n)
  {
    hide REDACTED;
  }

  lemma HeadsReplaced(p: Bytes, text: Bytes, left: Bytes, n: nat)
    requires p != [] && text != [] && left != [] && text[0] == left[0] && (p <= left <==> p <= text)
    requires n == if p <= text then |p| else 1
    ensures var head := if p <= text then REDACTED else [text[0]];
            && Replaced(p, text) == head + Replaced(p, text[n..])
            && Replaced(p, left) == head + Replaced(p, left[n..])
            && forall c ::
                 Replaced(p, text[n..]) == Replaced(p, left[n..]) + c ==> Replaced(p, text) == Replaced(p, left) + c
  {
    hide Mask, REDACTED, Replaced;
    ReplacedFirst(p, text);
    ReplacedFirst(p, left);
    var head := if p <= text then REDACTED else [text[0]];
    forall c | Replaced(p, text[n..]) == Replaced(p, left[n..]) + c
      ensures Replaced(p, text) == Replaced(p, left) + c
    {
      Regroup(head, Replaced(p, left[n..]), c);
    }
  }

  lemma Regroup(a: Bytes, b: Bytes, c: Bytes)
    ensures a + (b + c) == (a + b) + c
  {
  }

  lemma NothingReplaced(p: Bytes, text: Bytes)
    requires p != []
    ensures Replaced(p, []) == [] && Moved(p, text, 0) == 0
  {
  }

  lemma PrefixMatch(p: Bytes, text: Bytes, n: nat)
    requires n <= |text| && (p <= text ==> |p| <= n)
    ensures p <= text[..n] <==> p <= text
  {
    if p <= text {
      assert text[..n][..|p|] == text[..|p|];
    } else {
      assert text[..n] <= text;
    }
  }

  /** Inside an occurrence, the cursor lands right behind its replacement. */
  lemma {:induction false} CursorLeavesMatch(p: Bytes, text: Bytes, cursor: nat) returns (start: nat)
    requires p != [] && cursor <= |text| && !Between(p, text, cursor)
    ensures start < cursor < start + |p| && start <= |text| && p <= text[start..]
    ensures Between(p, text, start)
    ensures Moved(p, text, cursor) == Moved(p, text, start) + |REDACTED|
    decreases |text|
  {
    if p <= text && cursor < |p| {
      start := 0;
      assert text[0..] == text;
    } else {
      var n := if p <= text then |p| else 1;
      start := CursorLeavesMatch(p, text[n..], cursor - n);
      assert text[n..][start..] == text[n + start..];
      start := n + start;
    }
  }

  // ----- The reverse pass

  /** The first occurrence from `i` on, or the end. */
  function NextStart(p: Bytes, text: Bytes, i: nat): (s: nat)
    requires p != [] && i <= |text|
    ensures i <= s <= |text| && (s < |text| ==> p <= text[s..])
    decreases |text| - i
  {
    if i == |text| || p <= text[i..] then i else NextStart(p, text, i + 1)
  }

  /** Where the search goes on after the first `k` occurrences. */
  function SearchFrom(p: Bytes, starts: seq<nat>, k: nat): nat
    requires k <= |starts|
  {
    if k == 0 then 0 else starts[k - 1] + |p|
  }

  ghost predicate OccursAt(p: Bytes, text: Bytes, starts: seq<nat>, k: nat)
    requires p != [] && k < |starts|
  {
    && SearchFrom(p, starts, k) <= |text|
    && starts[k] == NextStart(p, text, SearchFrom(p, starts, k)) && starts[k] < |text|
  }

  /** The first occurrences, left to right and without overlap. */
  ghost predicate Occurrences(p: Bytes, text: Bytes, starts: seq<nat>)
    requires p != []
  {
    forall k: nat | k < |starts| :: OccursAt(p, text, starts, k)
  }

  /** Nothing changes before the next occurrence, neither text nor cursor. */
  lemma {:induction false} UpToNext(p: Bytes, text: Bytes, i: nat, cursor: nat)
    requires p != [] && i <= cursor <= |text|
    ensures var s := NextStart(p, text, i);
            && Replaced(p, text[i..]) == text[i..s] + Replaced(p, text[s..])
            && Moved(p, text[i..], cursor - i)
               == if cursor <= s then cursor - i else s - i + Moved(p, text[s..], cursor - s)
    decreases |text| - i
  {
    hide Mask, Replaced, REDACTED, Moved;
    var s := NextStart(p, text, i);
    if s == i {
      assert text[i..i] == [];
      NothingReplaced(p, text[i..]);
    } else {
      UpToNext(p, text, i + 1, if cursor == i then i + 1 else cursor);
      assert text[i..s] == [text[i]] + text[i + 1..s];
      NoOccurrence(p, text, i, cursor);
    }
  }

  lemma NoOccurrence(p: Bytes, text: Bytes, i: nat, cursor: nat)
    requires p != [] && i < |text| && i <= cursor <= |text| && !(p <= text[i..])
    ensures Replaced(p, text[i..]) == [text[i]] + Replaced(p, text[i + 1..])
    ensures Moved(p, text[i..], cursor - i) == if cursor == i then 0 else 1 + Moved(p, text[i + 1..], cursor - (i + 1))
  {
    hide Mask, Replaced, REDACTED;
    assert text[i..][1..] == text[i + 1..];
    ReplacedFirst(p, text[i..]);
  }

  /** Everything from `cut` on is replaced, nothing before it. */
  ghost predicate Done(p: Bytes, original: Bytes, cursor: nat, cut: nat, text: Bytes, moved: nat)
    requires p != [] && cursor <= |original|
  {
    && cut <= |original|
    && text == original[..cut] + Replaced(p, original[cut..])
    && moved == if cursor <= cut then cursor else cut + Moved(p, original[cut..], cursor - cut)
  }

  lemma NextOccurrence(p: Bytes, text: Bytes, cursor: nat)
    requires p != [] && cursor <= |text| && p <= text
    ensures Replaced(p, text) == REDACTED + Replaced(p, text[|p|..])
    ensures Moved(p, text, cursor)
         == if cursor == 0 then 0 else if cursor <= |p| then |REDACTED|
            else |REDACTED| + Moved(p, text[|p|..], cursor - |p|)
  {
    ReplacedFirst(p, text);
  }

  /** Replacing the occurrence before everything already replaced. */
  lemma ReplaceOne(p: Bytes, original: Bytes, cursor: nat, s: nat, text: Bytes, moved: nat)
    requires p != [] && cursor <= |original| && s + |p| <= |original| && p <= original[s..]
    requires Done(p, original, cursor, NextStart(p, original, s + |p|), text, moved)
    ensures s + |p| <= |text|
    ensures Done(p, original, cursor, s, text[..s] + REDACTED + text[s + |p|..],
                 if moved >= s + |p| then moved - |p| + |REDACTED|
                 else if moved > s then s + |REDACTED| else moved)
  {
    hide Mask, Moved, Replaced, REDACTED, NextStart;
    var e := s + |p|;
    var cut := NextStart(p, original, e);
    UpToNext(p, original, e, if cursor < e then e else cursor);
    assert original[s..][|p|..] == original[e..];
    NextOccurrence(p, original[s..], if cursor < s then 0 else cursor - s);
    assert text[..s] == original[..s];
    assert text[e..] == original[e..cut] + Replaced(p, original[cut..]);
    assert text[..s] + REDACTED + text[e..] == original[..s] + (REDACTED + Replaced(p, original[e..]));
  }

  method FindAll(p: Bytes, text: Bytes) returns (starts: seq<nat>)
    requires p != []
    ensures Occurrences(p, text, starts)
    ensures SearchFrom(p, starts, |starts|) <= |text| == NextStart(p, text, SearchFrom(p, starts, |starts|))
  {
    hide NextStart;
    starts := [];
    var at := 0;
    while true
      invariant at == SearchFrom(p, starts, |starts|) <= |text|
      invariant Occurrences(p, text, starts)
      decreases |text| - at
    {
      var s := NextStart(p, text, at);
      if s == |text| {
        return;
      }
      assert p <= text[s..];
      ghost var found := starts;
      starts := starts + [s];
      forall k: nat | k < |starts|
        ensures OccursAt(p, text, starts, k)
      {
        assert k < |found| ==> OccursAt(p, text, found, k);
      }
      at := s + |p|;
    }
  }

  /** One pattern: collects the occurrences, then replaces them last to first. */
  method ReplacePattern(p: Bytes, original: Bytes, cursor: nat) returns (text: Bytes, moved: nat)
    requires p != [] && cursor <= |original|
    ensures text == Replaced(p, original) && moved == Moved(p, original, cursor)
  {
    hide Mask, Moved, Replaced, NextStart, Done;
    var starts := FindAll(p, original);
    text, moved := original, cursor;
    var k := |starts|;
    Unreplaced(p, original, cursor);
    while k > 0
      invariant 0 <= k <= |starts| && SearchFrom(p, starts, k) <= |original|
      invariant Done(p, original, cursor, NextStart(p, original, SearchFrom(p, starts, k)), text, moved)
    {
      k := k - 1;
      var start := starts[k];
      assert OccursAt(p, original, starts, k);
      assert p <= original[start..];
      ReplaceOne(p, original, cursor, start, text, moved);
      var end := start + |p|;
      if moved >= end {
        moved := moved - |p| + |REDACTED|;
      } else if moved > start {
        moved := start + |REDACTED|;
      }
      text := text[..start] + REDACTED + text[end..];
    }
    AllDone(p, original, cursor, text, moved);
  }

  lemma AllDone(p: Bytes, original: Bytes, cursor: nat, text: Bytes, moved: nat)
    requires p != [] && cursor <= |original|
    requires Done(p, original, cursor, NextStart(p, original, 0), text, moved)
    ensures text == Replaced(p, original) && moved == Moved(p, original, cursor)
  {
    hide Mask, Moved, Replaced, NextStart;
    UpToNext(p, original, 0, cursor);
    assert original[0..] == original;
    assert original[..NextStart(p, original, 0)] == original[0..NextStart(p, original, 0)];
  }

  lemma Unreplaced(p: Bytes, original: Bytes, cursor: nat)
    requires p != [] && cursor <= |original|
    ensures Done(p, original, cursor, |original|, original, cursor)
  {
  }

  /** Where the cursor ends up after every pattern. */
  function MovedEach(patterns: seq<Bytes>, text: Bytes, cursor: nat): nat
    requires Usable(patterns) && cursor <= |text|
    decreases |patterns|
  {
    if patterns == [] then cursor
    else
      MovedWithin(patterns[0], text, cursor);
      MovedEach(patterns[1..], Replaced(patterns[0], text), Moved(patterns[0], text, cursor))
  }

  lemma {:induction false} MovedWithin(p: Bytes, text: Bytes, cursor: nat)
    requires p != [] && cursor <= |text|
    ensures Moved(p, text, cursor) <= |Replaced(p, text)|
    decreases |text|
  {
    hide Mask;
    if text != [] {
      ReplacedFirst(p, text);
      if p <= text {
        MovedWithin(p, text[|p|..], if cursor <= |p| then 0 else cursor - |p|);
      } else {
        MovedWithin(p, text[1..], if cursor == 0 then 0 else cursor - 1);
      }
    }
  }

  /** The shown text is the masked text, and the cursor stays inside it. */
  method TextCursor(patterns: seq<Bytes>, original: Bytes, cursor: nat) returns (text: Bytes, moved: nat)
    requires Usable(patterns) && cursor <= |original|
    ensures text == MaskEach(patterns, original) && moved == MovedEach(patterns, original, cursor)
    ensures moved <= |text|
  {
    text, moved := original, cursor;
    var k := 0;
    assert patterns[0..] == patterns;
    while k < |patterns|
      invariant 0 <= k <= |patterns| && moved <= |text| && Usable(patterns[k..])
      invariant MaskEach(patterns, original) == MaskEach(patterns[k..], text)
      invariant MovedEach(patterns, original, cursor) == MovedEach(patterns[k..], text, moved)
    {
      assert patterns[k..][0] == patterns[k] && patterns[k..][1..] == patterns[k + 1..];
      MovedWithin(patterns[k], text, moved);
      text, moved := ReplacePattern(patterns[k], text, moved);
      k := k + 1;
    }
  }
}
