/**
  Replacing one pattern after the other against masking in one scan: when both
  show the same, and when no pattern is left in what is shown.
 */
module TextMask {
  import opened ByteText
  import opened Redact
  import opened RedactCursor

  predicate Agree(a: Bytes, b: Bytes) { a <= b || b <= a }

  /** An occurrence of the pattern could share a byte with the mark. */
  predicate MeetsMark(q: Bytes) {
    || (exists k | 0 <= k < |q| :: Agree(q[k..], REDACTED))
    || (exists d | 0 <= d < |REDACTED| :: Agree(q, REDACTED[d..]))
  }

  ghost predicate Clear(patterns: seq<Bytes>) {
    forall k | 0 <= k < |patterns| :: patterns[k] != [] && !MeetsMark(patterns[k])
  }

  lemma FrontAgrees(q: Bytes, a: Bytes, x: Bytes)
    requires q <= a + x
    ensures Agree(q, a)
  {
    if |q| <= |a| {
      assert q == (a + x)[..|q|] == a[..|q|];
    } else {
      assert a == (a + x)[..|a|] == q[..|a|];
    }
  }

  /** Where a pattern that keeps clear of the mark begins, nothing was replaced
      up to its end. */
  lemma {:induction false} KeptFront(p: Bytes, q: Bytes, k: nat, text: Bytes)
    requires p != [] && !MeetsMark(q) && k < |q| && q[k..] <= Replaced(p, text)
    ensures text != [] && text[0] == q[k] && !(p <= text)
    ensures Replaced(p, text)[1..] == Replaced(p, text[1..]) && q[k + 1..] <= Replaced(p, text[1..])
  {
    hide Replaced, REDACTED, MeetsMark;
    NothingReplaced(p, text);
    ReplacedFirst(p, text);
    if p <= text {
      FrontAgrees(q[k..], REDACTED, Replaced(p, text[|p|..]));
      MeetsInside(q, k);
    }
    assert q[k..][0] == q[k] && q[k..][1..] == q[k + 1..];
    assert q[k..][1..] <= Replaced(p, text)[1..];
  }

  lemma MeetsInside(q: Bytes, k: nat)
    requires k < |q| && Agree(q[k..], REDACTED)
    ensures MeetsMark(q)
  {
  }

  lemma MeetsBehind(q: Bytes, d: nat)
    requires d < |REDACTED| && Agree(q, REDACTED[d..])
    ensures MeetsMark(q)
  {
  }

  /** The text is the pattern from `k` on, and kept as it is. */
  lemma {:induction false} KeptWhole(p: Bytes, q: Bytes, k: nat, text: Bytes)
    requires p != [] && !MeetsMark(q) && k <= |q| && q[k..] <= Replaced(p, text)
    ensures q[k..] <= text
    ensures forall d | 0 <= d <= |q| - k ::
              d <= |Replaced(p, text)| && Replaced(p, text)[d..] == Replaced(p, text[d..])
    decreases |q| - k
  {
    hide Replaced, REDACTED, MeetsMark;
    if k == |q| {
      assert text[0..] == text && Replaced(p, text)[0..] == Replaced(p, text);
    } else {
      KeptFront(p, q, k, text);
      KeptWhole(p, q, k + 1, text[1..]);
      assert q[k..] == [q[k]] + q[k + 1..] && text == [text[0]] + text[1..];
      forall d | 0 <= d <= |q| - k
        ensures d <= |Replaced(p, text)| && Replaced(p, text)[d..] == Replaced(p, text[d..])
      {
        if d > 0 {
          OneFurther(p, text, d);
        } else {
          assert text[0..] == text && Replaced(p, text)[0..] == Replaced(p, text);
        }
      }
    }
  }

  lemma OneFurther(p: Bytes, text: Bytes, d: nat)
    requires p != [] && text != [] && 0 < d <= |text| && Replaced(p, text) != []
    requires Replaced(p, text)[1..] == Replaced(p, text[1..])
    requires d - 1 <= |Replaced(p, text[1..])| && Replaced(p, text[1..])[d - 1..] == Replaced(p, text[1..][d - 1..])
    ensures d <= |Replaced(p, text)| && Replaced(p, text)[d..] == Replaced(p, text[d..])
  {
    hide Replaced;
    assert text[1..][d - 1..] == text[d..];
    assert Replaced(p, text)[1..][d - 1..] == Replaced(p, text)[d..];
  }

  /** An occurrence in what is shown was one in the text, and what is shown from
      it on is what the text from there on shows. */
  lemma {:induction false} OccurrenceComesFrom(p: Bytes, q: Bytes, text: Bytes, j: nat) returns (i: nat)
    requires p != [] && q != [] && !MeetsMark(q) && j <= |Replaced(p, text)| && q <= Replaced(p, text)[j..]
    ensures i <= |text| && q <= text[i..] && Replaced(p, text)[j..] == Replaced(p, text[i..])
    decreases |text|
  {
    hide Replaced, REDACTED, MeetsMark;
    if j == 0 {
      i := 0;
      assert text[0..] == text && Replaced(p, text)[0..] == Replaced(p, text) && q[0..] == q;
      KeptWhole(p, q, 0, text);
    } else {
      NothingReplaced(p, text);
      var n := if p <= text then |p| else 1;
      var head := if p <= text then |REDACTED| else 1;
      BehindFirst(p, q, text, j);
      var at := OccurrenceComesFrom(p, q, text[n..], j - head);
      i := n + at;
      assert text[n..][at..] == text[i..];
    }
  }

  /** An occurrence that does not begin what is shown begins behind the first
      mark or byte of it. */
  lemma BehindFirst(p: Bytes, q: Bytes, text: Bytes, j: nat)
    requires p != [] && q != [] && !MeetsMark(q) && text != []
    requires 0 < j <= |Replaced(p, text)| && q <= Replaced(p, text)[j..]
    ensures var n := if p <= text then |p| else 1;
            var head := if p <= text then |REDACTED| else 1;
            && head <= j && j - head <= |Replaced(p, text[n..])|
            && Replaced(p, text)[j..] == Replaced(p, text[n..])[j - head..]
  {
    hide Replaced, REDACTED, MeetsMark;
    ReplacedFirst(p, text);
    var head := if p <= text then REDACTED else [text[0]];
    var rest := Replaced(p, text[if p <= text then |p| else 1..]);
    if j < |head| {
      assert (head + rest)[j..] == head[j..] + rest;
      FrontAgrees(q, REDACTED[j..], rest);
      MeetsBehind(q, j);
    }
    assert (head + rest)[j..] == rest[j - |head|..];
  }

  /** No occurrence of the pattern itself is left. */
  lemma OwnIsGone(p: Bytes, text: Bytes, j: nat)
    requires p != [] && !MeetsMark(p) && j <= |Replaced(p, text)|
    ensures !(p <= Replaced(p, text)[j..])
  {
    hide Replaced, REDACTED, MeetsMark;
    if p <= Replaced(p, text)[j..] {
      var i := OccurrenceComesFrom(p, p, text, j);
      assert p[0..] == p;
      KeptFront(p, p, 0, text[i..]);
    }
  }

  ghost predicate Absent(q: Bytes, text: Bytes) {
    forall j | 0 <= j <= |text| :: !(q <= text[j..])
  }

  lemma {:induction false} StaysAbsent(patterns: seq<Bytes>, q: Bytes, text: Bytes)
    requires Usable(patterns) && q != [] && !MeetsMark(q) && Absent(q, text)
    ensures Absent(q, MaskEach(patterns, text))
    decreases |patterns|
  {
    hide Replaced, REDACTED, MeetsMark;
    if patterns != [] {
      var next := Replaced(patterns[0], text);
      forall j | 0 <= j <= |next|
        ensures !(q <= next[j..])
      {
        if q <= next[j..] {
          var i := OccurrenceComesFrom(patterns[0], q, text, j);
        }
      }
      StaysAbsent(patterns[1..], q, next);
    }
  }

  /** A pattern that cannot share a byte with the mark is not left in what is
      shown. */
  lemma {:induction false} NoPatternLeft(patterns: seq<Bytes>, text: Bytes, k: nat)
    requires Usable(patterns) && k < |patterns| && !MeetsMark(patterns[k])
    ensures Absent(patterns[k], MaskEach(patterns, text))
    decreases |patterns|
  {
    hide Replaced, REDACTED, MeetsMark;
    var next := Replaced(patterns[0], text);
    assert Usable(patterns[1..]);
    if k == 0 {
      forall j | 0 <= j <= |next|
        ensures !(patterns[0] <= next[j..])
      {
        OwnIsGone(patterns[0], text, j);
      }
      StaysAbsent(patterns[1..], patterns[0], next);
    } else {
      NoPatternLeft(patterns[1..], next, k - 1);
    }
  }

  // ----- One after the other, or in one scan

  /** Occurrences of different patterns do not overlap. */
  ghost predicate Apart(patterns: seq<Bytes>, text: Bytes) {
    forall k, l, i, j |
      && 0 <= k < |patterns| && 0 <= l < |patterns| && 0 <= i < j <= |text| && j < i + |patterns[k]|
      && patterns[k] <= text[i..] && patterns[l] <= text[j..]
      :: patterns[k] == patterns[l]
  }

  lemma ApartUse(patterns: seq<Bytes>, text: Bytes, k: nat, l: nat, i: nat, j: nat)
    requires Apart(patterns, text) && k < |patterns| && l < |patterns| && i < j <= |text| && j < i + |patterns[k]|
    requires patterns[k] <= text[i..] && patterns[l] <= text[j..]
    ensures patterns[k] == patterns[l]
  {
  }

  lemma ApartRest(patterns: seq<Bytes>, text: Bytes, n: nat)
    requires Apart(patterns, text) && n <= |text|
    ensures Apart(patterns, text[n..])
  {
    var rest := text[n..];
    forall k, l, i, j |
      && 0 <= k < |patterns| && 0 <= l < |patterns| && 0 <= i < j <= |rest| && j < i + |patterns[k]|
      && patterns[k] <= rest[i..] && patterns[l] <= rest[j..]
      ensures patterns[k] == patterns[l]
    {
      assert rest[i..] == text[n + i..] && rest[j..] == text[n + j..];
      ApartUse(patterns, text, k, l, n + i, n + j);
    }
  }

  lemma ApartFewer(p: Bytes, patterns: seq<Bytes>, text: Bytes)
    requires Apart([p] + patterns, text)
    ensures Apart(patterns, text)
  {
    hide Apart;
    var all := [p] + patterns;
    forall k, l, i, j |
      && 0 <= k < |patterns| && 0 <= l < |patterns| && 0 <= i < j <= |text| && j < i + |patterns[k]|
      && patterns[k] <= text[i..] && patterns[l] <= text[j..]
      ensures patterns[k] == patterns[l]
    {
      assert all[k + 1] == patterns[k] && all[l + 1] == patterns[l];
      ApartUse(all, text, k + 1, l + 1, i, j);
    }
    ApartMeans(patterns, text);
  }

  /** Replacing one pattern leaves the others apart. */
  lemma ApartAfter(p: Bytes, patterns: seq<Bytes>, text: Bytes)
    requires p != [] && Clear(patterns) && Apart(patterns, text)
    ensures Apart(patterns, Replaced(p, text))
  {
    hide Replaced, REDACTED, MeetsMark, Apart;
    var next := Replaced(p, text);
    forall k, l, i, j |
      && 0 <= k < |patterns| && 0 <= l < |patterns| && 0 <= i < j <= |next| && j < i + |patterns[k]|
      && patterns[k] <= next[i..] && patterns[l] <= next[j..]
      ensures patterns[k] == patterns[l]
    {
      var q := patterns[k];
      var at := OccurrenceComesFrom(p, q, text, i);
      assert q[0..] == q;
      KeptWhole(p, q, 0, text[at..]);
      assert next[j..] == next[i..][j - i..];
      assert text[at..][j - i..] == text[at + (j - i)..];
      assert patterns[l][0..] == patterns[l];
      KeptWhole(p, patterns[l], 0, text[at + (j - i)..]);
      ApartUse(patterns, text, k, l, at, at + (j - i));
    }
    ApartMeans(patterns, next);
  }

  lemma ApartMeans(patterns: seq<Bytes>, text: Bytes)
    requires forall k, l, i, j |
               && 0 <= k < |patterns| && 0 <= l < |patterns| && 0 <= i < j <= |text| && j < i + |patterns[k]|
               && patterns[k] <= text[i..] && patterns[l] <= text[j..]
               :: patterns[k] == patterns[l]
    ensures Apart(patterns, text)
  {
  }

  lemma {:induction false} SameMatch(patterns: seq<Bytes>, a: Bytes, b: Bytes)
    requires forall k | 0 <= k < |patterns| :: patterns[k] <= a <==> patterns[k] <= b
    ensures MatchLength(patterns, a) == MatchLength(patterns, b)
    decreases |patterns|
  {
    if patterns != [] {
      assert forall k | 0 < k < |patterns| :: patterns[k] == patterns[1..][k - 1];
      SameMatch(patterns[1..], a, b);
    }
  }

  /** A mark in the text is scanned over byte by byte. */
  lemma {:induction false} MarkIsScanned(patterns: seq<Bytes>, d: nat, rest: Bytes)
    requires Clear(patterns) && d <= |REDACTED|
    ensures Mask(patterns, REDACTED[d..] + rest) == REDACTED[d..] + Mask(patterns, rest)
    decreases |REDACTED| - d
  {
    hide REDACTED, MeetsMark, Mask, MatchLength;
    var text := REDACTED[d..] + rest;
    if d == |REDACTED| {
      assert REDACTED[d..] == [] && text == rest;
    } else {
      forall k | 0 <= k < |patterns|
        ensures !(patterns[k] <= text)
      {
        if patterns[k] <= text {
          FrontAgrees(patterns[k], REDACTED[d..], rest);
          MeetsBehind(patterns[k], d);
        }
      }
      FirstPatternMatches(patterns, text);
      MarkIsScanned(patterns, d + 1, rest);
      PlainStep(patterns, text);
      assert text[1..] == REDACTED[d + 1..] + rest && REDACTED[d..] == [text[0]] + REDACTED[d + 1..];
    }
  }

  lemma PlainStep(patterns: seq<Bytes>, text: Bytes)
    requires text != [] && MatchLength(patterns, text) == 0
    ensures Mask(patterns, text) == [text[0]] + Mask(patterns, text[1..])
  {
  }

  lemma MatchStep(patterns: seq<Bytes>, text: Bytes)
    requires text != [] && MatchLength(patterns, text) > 0
    ensures Mask(patterns, text) == REDACTED + Mask(patterns, text[MatchLength(patterns, text)..])
  {
    hide REDACTED;
  }

  /** An occurrence that no occurrence of `p` overlaps is left as it is. */
  lemma {:induction false} UntouchedFront(p: Bytes, text: Bytes, n: nat)
    requires p != [] && n <= |text| && forall j | 0 <= j < n :: !(p <= text[j..])
    ensures Replaced(p, text) == text[..n] + Replaced(p, text[n..])
    decreases n
  {
    hide Replaced;
    assert text[0..] == text;
    if n > 0 {
      ReplacedFirst(p, text);
      forall j | 0 <= j < n - 1
        ensures !(p <= text[1..][j..])
      {
        assert text[1..][j..] == text[j + 1..];
      }
      UntouchedFront(p, text[1..], n - 1);
      assert text[1..][..n - 1] == text[1..n] && text[1..][n - 1..] == text[n..];
      assert text[..n] == [text[0]] + text[1..n];
    }
  }

  /** Where the text does not begin with `p`, the other patterns match what is
      shown exactly where they match the text. */
  lemma SameFront(p: Bytes, patterns: seq<Bytes>, text: Bytes)
    requires p != [] && Clear(patterns) && Apart([p] + patterns, text) && !(p <= text)
    ensures MatchLength(patterns, Replaced(p, text)) == MatchLength(patterns, text)
    ensures var n := MatchLength(patterns, text);
            n <= |Replaced(p, text)| && Replaced(p, text)[n..] == Replaced(p, text[n..])
  {
    hide Replaced, REDACTED, MeetsMark, MatchLength, Apart;
    var all := [p] + patterns;
    forall k | 0 <= k < |patterns|
      ensures patterns[k] <= Replaced(p, text) <==> patterns[k] <= text
      ensures patterns[k] <= text ==>
                |patterns[k]| <= |Replaced(p, text)|
                && Replaced(p, text)[|patterns[k]|..] == Replaced(p, text[|patterns[k]|..])
    {
      var q := patterns[k];
      assert q[0..] == q && all[0] == p && all[k + 1] == q;
      if q <= text {
        forall j | 0 <= j < |q|
          ensures !(p <= text[j..])
        {
          assert text[0..] == text;
          if p <= text[j..] {
            ApartUse(all, text, k + 1, 0, 0, j);
          }
        }
        UntouchedFront(p, text, |q|);
        assert text[..|q|] == q;
      }
      if q <= Replaced(p, text) {
        KeptWhole(p, q, 0, text);
      }
    }
    SameMatch(patterns, text, Replaced(p, text));
    FirstPatternMatches(patterns, text);
    assert text[0..] == text && Replaced(p, text)[0..] == Replaced(p, text);
  }

  /** One pattern before the others, or all in one scan. */
  lemma {:induction false} OneScanAfter(p: Bytes, patterns: seq<Bytes>, text: Bytes)
    requires p != [] && Clear(patterns) && Apart([p] + patterns, text)
    ensures Mask(patterns, Replaced(p, text)) == Mask([p] + patterns, text)
    decreases |text|
  {
    hide Replaced, REDACTED, MeetsMark, MatchLength, Apart, Mask;
    var all, shown := [p] + patterns, Replaced(p, text);
    FirstTried(p, patterns, text);
    if text == [] {
      NothingReplaced(p, text);
      NothingMasked(patterns);
      NothingMasked(all);
    } else if p <= text {
      ReplacedFirst(p, text);
      MarkIsScanned(patterns, 0, Replaced(p, text[|p|..]));
      assert REDACTED[0..] == REDACTED;
      MatchStep(all, text);
      ApartRest(all, text, |p|);
      OneScanAfter(p, patterns, text[|p|..]);
    } else {
      ReplacedFirst(p, text);
      SameFront(p, patterns, text);
      var n := MatchLength(patterns, text);
      if n == 0 {
        PlainStep(all, text);
        PlainStep(patterns, shown);
        ApartRest(all, text, 1);
        OneScanAfter(p, patterns, text[1..]);
      } else {
        MatchStep(all, text);
        MatchStep(patterns, shown);
        ApartRest(all, text, n);
        OneScanAfter(p, patterns, text[n..]);
      }
    }
  }

  lemma FirstTried(p: Bytes, patterns: seq<Bytes>, text: Bytes)
    ensures MatchLength([p] + patterns, text) == if p <= text then |p| else MatchLength(patterns, text)
  {
    assert ([p] + patterns)[1..] == patterns;
  }

  lemma NothingMasked(patterns: seq<Bytes>)
    ensures Mask(patterns, []) == []
  {
  }

  lemma {:induction false} NoPatterns(text: Bytes)
    ensures Mask([], text) == text
  {
    if text != [] {
      NoPatterns(text[1..]);
    }
  }

  /** Replacing the patterns one after the other shows what one scan shows, when
      none can share a byte with the mark and none overlaps another. */
  lemma {:induction false} EachIsOneScan(patterns: seq<Bytes>, text: Bytes)
    requires Clear(patterns) && Apart(patterns, text)
    ensures MaskEach(patterns, text) == Mask(patterns, text)
    decreases |patterns|
  {
    hide Replaced, REDACTED, MeetsMark, Apart, Mask;
    if patterns == [] {
      NoPatterns(text);
    } else {
      var p, rest := patterns[0], patterns[1..];
      assert patterns == [p] + rest && Clear(rest);
      OneScanAfter(p, rest, text);
      ApartFewer(p, rest, text);
      ApartAfter(p, rest, text);
      EachIsOneScan(rest, Replaced(p, text));
    }
  }
}
