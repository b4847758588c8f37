/**
  The line alignment behind a displayed change: longest common subsequences,
  the rolling-row score table and the divide-and-conquer search for one
  longest pairing. Lines take part through their text only.
 */
module Alignment {

  type Pairs = seq<(nat, nat)>

  /** `p` pairs equal lines of `a`, numbered from `i`, and of `b`, numbered
      from `j`, without ever crossing. */
  ghost predicate PairsUp(p: Pairs, a: seq<string>, b: seq<string>, i: nat, j: nat) {
    && (forall k | 0 <= k < |p| ::
          i <= p[k].0 < i + |a| && j <= p[k].1 < j + |b| && a[p[k].0 - i] == b[p[k].1 - j])
    && (forall k, l | 0 <= k < l < |p| :: p[k].0 < p[l].0 && p[k].1 < p[l].1)
  }

  /** The length of a longest common subsequence. */
  function Length(a: seq<string>, b: seq<string>): nat
    decreases |a| + |b|
  {
    if a == [] || b == [] then 0
    else
      var a', b' := a[..|a| - 1], b[..|b| - 1];
      if a[|a| - 1] == b[|b| - 1] then Length(a', b') + 1
      else
        var x, y := Length(a', b), Length(a, b');
        if x < y then y else x
  }

  // ----- `Length` is the size of the largest pairing

  lemma {:induction false} LengthIsUpperBound(p: Pairs, a: seq<string>, b: seq<string>, i: nat, j: nat)
    requires PairsUp(p, a, b, i, j)
    ensures |p| <= Length(a, b)
    decreases |a| + |b|
  {
    if p != [] {
      var (x, y) := p[|p| - 1];
      var a', b' := a[..|a| - 1], b[..|b| - 1];
      if a[|a| - 1] == b[|b| - 1] {
        LengthIsUpperBound(p[..|p| - 1], a', b', i, j);
      } else if x < i + |a| - 1 {
        LengthIsUpperBound(p, a', b, i, j);
      } else {
        LengthIsUpperBound(p, a, b', i, j);
      }
    }
  }

  lemma {:induction false} LengthIsReached(a: seq<string>, b: seq<string>, i: nat, j: nat) returns (p: Pairs)
    ensures PairsUp(p, a, b, i, j) && |p| == Length(a, b)
    decreases |a| + |b|
  {
    if a == [] || b == [] {
      p := [];
    } else {
      var a', b' := a[..|a| - 1], b[..|b| - 1];
      if a[|a| - 1] == b[|b| - 1] {
        p := LengthIsReached(a', b', i, j);
        p := p + [(i + |a| - 1, j + |b| - 1)];
      } else if Length(a', b) < Length(a, b') {
        p := LengthIsReached(a, b', i, j);
      } else {
        p := LengthIsReached(a', b, i, j);
      }
    }
  }

  lemma JoinPairs(p: Pairs, q: Pairs, a: seq<string>, b: seq<string>, m: nat, n: nat, i: nat, j: nat)
    requires m <= |a| && n <= |b|
    requires PairsUp(p, a[..m], b[..n], i, j) && PairsUp(q, a[m..], b[n..], i + m, j + n)
    ensures PairsUp(p + q, a, b, i, j)
  {
    forall k | 0 <= k < |p + q|
      ensures i <= (p + q)[k].0 < i + |a| && j <= (p + q)[k].1 < j + |b|
      ensures a[(p + q)[k].0 - i] == b[(p + q)[k].1 - j]
    {
      if k < |p| {
        assert a[..m][p[k].0 - i] == b[..n][p[k].1 - j];
      } else {
        var t := q[k - |p|];
        assert a[m..][t.0 - (i + m)] == b[n..][t.1 - (j + n)];
      }
    }
  }

  /** Halves of the two lists together never pair more than the whole. */
  lemma SplitIsLowerBound(a: seq<string>, b: seq<string>, m: nat, n: nat)
    requires m <= |a| && n <= |b|
    ensures Length(a[..m], b[..n]) + Length(a[m..], b[n..]) <= Length(a, b)
  {
    var p := LengthIsReached(a[..m], b[..n], 0, 0);
    var q := LengthIsReached(a[m..], b[n..], m, n);
    JoinPairs(p, q, a, b, m, n, 0, 0);
    LengthIsUpperBound(p + q, a, b, 0, 0);
  }

  /** Where a pairing is cut, the second list can be cut between its pairs. */
  lemma CutPairs(p: Pairs, a: seq<string>, b: seq<string>, m: nat, c: nat) returns (n: nat)
    requires PairsUp(p, a, b, 0, 0) && m <= |a| && c <= |p|
    requires forall k | 0 <= k < c :: p[k].0 < m
    requires c < |p| ==> m <= p[c].0
    ensures n <= |b| && PairsUp(p[..c], a[..m], b[..n], 0, 0) && PairsUp(p[c..], a[m..], b[n..], m, n)
  {
    n := if c < |p| then p[c].1 else |b|;
  }

  /** The split lemma of the divide-and-conquer search: wherever `a` is cut,
      some cut of `b` loses nothing. */
  lemma SomeSplitIsExact(a: seq<string>, b: seq<string>, m: nat) returns (n: nat)
    requires m <= |a|
    ensures n <= |b|
    ensures Length(a[..m], b[..n]) + Length(a[m..], b[n..]) == Length(a, b)
  {
    hide Length, PairsUp;
    var p := LengthIsReached(a, b, 0, 0);
    var c := 0;
    while c < |p| && p[c].0 < m
      invariant 0 <= c <= |p|
      invariant forall k | 0 <= k < c :: p[k].0 < m
    {
      c := c + 1;
    }
    n := CutPairs(p, a, b, m, c);
    LengthIsUpperBound(p[..c], a[..m], b[..n], 0, 0);
    LengthIsUpperBound(p[c..], a[m..], b[n..], m, n);
    SplitIsLowerBound(a, b, m, n);
  }

  // ----- Reading both lists backwards

  function Reversed(s: seq<string>): (r: seq<string>)
    ensures |r| == |s| && forall k | 0 <= k < |s| :: r[k] == s[|s| - 1 - k]
  {
    seq(|s|, k requires 0 <= k < |s| => s[|s| - 1 - k])
  }

  /** The pairing seen when both lists are read backwards. */
  lemma MirroredPairs(p: Pairs, a: seq<string>, b: seq<string>) returns (q: Pairs)
    requires PairsUp(p, a, b, 0, 0)
    ensures PairsUp(q, Reversed(a), Reversed(b), 0, 0) && |q| == |p|
  {
    q := [];
    var c := |p|;
    while c > 0
      invariant 0 <= c <= |p| && |q| == |p| - c
      invariant forall k | 0 <= k < |q| :: q[k].0 == |a| - 1 - p[|p| - 1 - k].0 && q[k].1 == |b| - 1 - p[|p| - 1 - k].1
    {
      c := c - 1;
      assert p[c].0 < 0 + |a| && p[c].1 < 0 + |b|;
      q := q + [(|a| - 1 - p[c].0, |b| - 1 - p[c].1)];
    }
    forall k | 0 <= k < |q|
      ensures 0 <= q[k].0 < |a| && 0 <= q[k].1 < |b| && Reversed(a)[q[k].0 - 0] == Reversed(b)[q[k].1 - 0]
    {
      var t := p[|p| - 1 - k];
      assert a[t.0 - 0] == b[t.1 - 0];
    }
    forall k, l | 0 <= k < l < |q| ensures q[k].0 < q[l].0 && q[k].1 < q[l].1 {
      var x, y := |p| - 1 - l, |p| - 1 - k;
      assert p[x].0 < p[y].0 && p[x].1 < p[y].1;
    }
  }

  lemma ReversedIsNoShorter(a: seq<string>, b: seq<string>)
    ensures Length(a, b) <= Length(Reversed(a), Reversed(b))
  {
    var p := LengthIsReached(a, b, 0, 0);
    var q := MirroredPairs(p, a, b);
    LengthIsUpperBound(q, Reversed(a), Reversed(b), 0, 0);
  }

  lemma ReversedLength(a: seq<string>, b: seq<string>)
    ensures Length(Reversed(a), Reversed(b)) == Length(a, b)
  {
    ReversedIsNoShorter(a, b);
    ReversedIsNoShorter(Reversed(a), Reversed(b));
    assert Reversed(Reversed(a)) == a && Reversed(Reversed(b)) == b;
  }

  /** A common ending pairs with itself. */
  lemma {:induction false} CommonSuffix(a: seq<string>, b: seq<string>, y: seq<string>)
    ensures Length(a + y, b + y) == Length(a, b) + |y|
    decreases |y|
  {
    if y == [] {
      assert a + y == a && b + y == b;
    } else {
      var y' := y[..|y| - 1];
      assert (a + y)[..|a + y| - 1] == a + y' && (b + y)[..|b + y| - 1] == b + y';
      CommonSuffix(a, b, y');
    }
  }

  /** A common beginning pairs with itself. */
  lemma CommonPrefix(a: seq<string>, b: seq<string>, x: seq<string>)
    ensures Length(x + a, x + b) == |x| + Length(a, b)
  {
    assert Reversed(x + a) == Reversed(a) + Reversed(x);
    assert Reversed(x + b) == Reversed(b) + Reversed(x);
    ReversedLength(x + a, x + b);
    CommonSuffix(Reversed(a), Reversed(b), Reversed(x));
    ReversedLength(a, b);
  }

  /** Lists that pair at all share a line. */
  lemma SomethingInCommon(a: seq<string>, b: seq<string>)
    ensures Length(a, b) > 0 <==> exists t | t in b :: t in a
  {
    hide Length;
    var p := LengthIsReached(a, b, 0, 0);
    if p != [] {
      assert a[p[0].0 - 0] == b[p[0].1 - 0];
      assert b[p[0].1] in a;
    }
    if t :| t in b && t in a {
      var i :| 0 <= i < |a| && a[i] == t;
      var j :| 0 <= j < |b| && b[j] == t;
      LengthIsUpperBound([(i, j)], a, b, 0, 0);
    }
  }

  /** One line pairs with its first occurrence, if any. */
  lemma SingleLine(a: seq<string>, b: seq<string>)
    requires |a| == 1 || |b| == 1
    ensures Length(a, b) == if exists t | t in a :: t in b then 1 else 0
  {
    var p := LengthIsReached(a, b, 0, 0);
    if p != [] {
      assert a[p[0].0 - 0] == b[p[0].1 - 0];
      assert a[p[0].0] in b;
    }
    if t :| t in a && t in b {
      var i :| 0 <= i < |a| && a[i] == t;
      var j :| 0 <= j < |b| && b[j] == t;
      LengthIsUpperBound([(i, j)], a, b, 0, 0);
    }
  }

  // ----- The score table, one row at a time

  function Facing(s: seq<string>, reverse: bool): seq<string> {
    if reverse then Reversed(s) else s
  }

  lemma TableStep(a: seq<string>, b: seq<string>, i: nat, j: nat)
    requires i < |a| && j < |b|
    ensures Length(a[..i + 1], b[..0]) == 0
    ensures Length(a[..i + 1], b[..j + 1])
         == if a[i] == b[j] then Length(a[..i], b[..j]) + 1
            else if Length(a[..i], b[..j + 1]) < Length(a[..i + 1], b[..j]) then Length(a[..i + 1], b[..j])
            else Length(a[..i], b[..j + 1])
  {
    assert a[..i + 1][..i] == a[..i] && b[..j + 1][..j] == b[..j];
  }

  lemma NothingToAlign(a: seq<string>, b: seq<string>)
    ensures forall j | 0 <= j <= |b| :: Length(a[..0], b[..j]) == 0
    ensures forall i | 0 <= i <= |a| :: Length(a[..i], b[..0]) == 0
  {
  }

  /** Column `j` scores `a` against the first `j` lines of `b`, or against its
      last `j` lines when both are read backwards. */
  method Scores(a: seq<string>, b: seq<string>, reverse: bool) returns (row: seq<nat>)
    ensures |row| == |b| + 1
    ensures forall j | 0 <= j <= |b| ::
              row[j] == if reverse then Length(a, b[|b| - j..]) else Length(a, b[..j])
  {
    hide Length, Reversed;
    ghost var fa, fb := Facing(a, reverse), Facing(b, reverse);
    NothingToAlign(fa, fb);
    var previous := new nat[|b| + 1](_ => 0);
    var current := new nat[|b| + 1](_ => 0);
    for left := 0 to |a|
      invariant previous != current && fresh(previous) && fresh(current)
      invariant previous.Length == current.Length == |b| + 1
      invariant current[0] == 0
      invariant forall j | 0 <= j <= |b| :: previous[j] == Length(fa[..left], fb[..j])
    {
      var aLine := if reverse then a[|a| - 1 - left] else a[left];
      for right := 0 to |b|
        invariant forall j | 0 <= j <= |b| :: previous[j] == Length(fa[..left], fb[..j])
        invariant forall j | 0 <= j <= right :: current[j] == Length(fa[..left + 1], fb[..j])
      {
        var bLine := if reverse then b[|b| - 1 - right] else b[right];
        TableStep(fa, fb, left, right);
        current[right + 1] :=
          if aLine == bLine then previous[right] + 1
          else if previous[right + 1] < current[right] then current[right]
          else previous[right + 1];
      }
      previous, current := current, previous;
      forall j | 0 <= j < current.Length { current[j] := 0; }
    }
    row := previous[..];
    assert fa[..|a|] == fa;
    if reverse {
      forall j | 0 <= j <= |b| ensures row[j] == Length(a, b[|b| - j..]) {
        assert fb[..j] == Reversed(b[|b| - j..]);
        ReversedLength(a, b[|b| - j..]);
      }
    }
  }

  /** The last index with the greatest combined score. */
  method BestSplit(left: seq<nat>, right: seq<nat>, n: nat) returns (boundary: nat)
    requires |left| == |right| == n + 1
    ensures boundary <= n
    ensures forall k | 0 <= k <= n :: left[k] + right[n - k] <= left[boundary] + right[n - boundary]
    ensures forall k | boundary < k <= n :: left[k] + right[n - k] < left[boundary] + right[n - boundary]
  {
    boundary := 0;
    for index := 1 to n + 1
      invariant boundary < index
      invariant forall k | 0 <= k < index :: left[k] + right[n - k] <= left[boundary] + right[n - boundary]
      invariant forall k | boundary < k < index :: left[k] + right[n - k] < left[boundary] + right[n - boundary]
    {
      if left[boundary] + right[n - boundary] <= left[index] + right[n - index] {
        boundary := index;
      }
    }
  }

  /** The first line with this text. */
  method Position(lines: seq<string>, text: string) returns (found: bool, index: nat)
    ensures found <==> text in lines
    ensures found ==> index < |lines| && lines[index] == text && text !in lines[..index]
  {
    found, index := false, 0;
    while index < |lines|
      invariant index <= |lines|
      invariant text !in lines[..index]
    {
      if lines[index] == text {
        return true, index;
      }
      index := index + 1;
    }
  }

  /** One line of one list against the first equal line of the other. */
  method MatchSingle(lines: seq<string>, text: string, flipped: bool, beforeStart: nat, afterStart: nat)
    returns (found: Pairs)
    ensures if flipped then PairsUp(found, lines, [text], beforeStart, afterStart)
            else PairsUp(found, [text], lines, beforeStart, afterStart)
    ensures |found| == if flipped then Length(lines, [text]) else Length([text], lines)
  {
    SingleLine(lines, [text]);
    SingleLine([text], lines);
    assert text in [text];
    var present, index := Position(lines, text);
    if !present {
      return [];
    }
    return [if flipped then (beforeStart + index, afterStart) else (beforeStart, afterStart + index)];
  }

  /** Appends one longest pairing of `before` and `after` to `result`. */
  method Matches(before: seq<string>, after: seq<string>, beforeStart: nat, afterStart: nat, result: Pairs)
    returns (extended: Pairs)
    ensures result <= extended
    ensures PairsUp(extended[|result|..], before, after, beforeStart, afterStart)
    ensures |extended| == |result| + Length(before, after)
    decreases |before|, |after|
  {
    hide PairsUp, Length;
    NothingPairs(before, after, beforeStart, afterStart);
    if |before| == 0 || |after| == 0 {
      assert result[|result|..] == [];
      return result;
    }
    if |before| == 1 {
      assert before == [before[0]];
      var found := MatchSingle(after, before[0], false, beforeStart, afterStart);
      extended := result + found;
      assert extended[|result|..] == found;
      return;
    }
    if |after| == 1 {
      assert after == [after[0]];
      var found := MatchSingle(before, after[0], true, beforeStart, afterStart);
      extended := result + found;
      assert extended[|result|..] == found;
      return;
    }
    var middle := |before| / 2;
    var boundary := Boundary(before, after, middle);
    var half := Matches(before[..middle], after[..boundary], beforeStart, afterStart, result);
    extended := Matches(before[middle..], after[boundary..], beforeStart + middle, afterStart + boundary, half);
    JoinPairs(half[|result|..], extended[|half|..], before, after, middle, boundary, beforeStart, afterStart);
    assert extended[|result|..] == half[|result|..] + extended[|half|..];
  }

  lemma NothingPairs(a: seq<string>, b: seq<string>, i: nat, j: nat)
    ensures PairsUp([], a, b, i, j) && (a == [] || b == [] ==> Length(a, b) == 0)
  {
  }

  /** Where the second list is cut once the first is cut at `middle`. */
  method Boundary(before: seq<string>, after: seq<string>, middle: nat) returns (boundary: nat)
    requires middle <= |before|
    ensures boundary <= |after|
    ensures Length(before[..middle], after[..boundary]) + Length(before[middle..], after[boundary..])
         == Length(before, after)
  {
    var left := Scores(before[..middle], after, false);
    var right := Scores(before[middle..], after, true);
    boundary := BestSplit(left, right, |after|);
    ghost var exact := SomeSplitIsExact(before, after, middle);
    assert left[exact] + right[|after| - exact] == Length(before, after);
    SplitIsLowerBound(before, after, middle, boundary);
  }

  // ----- What a longest pairing is good for

  datatype Edit = Keep | Delete | Insert(text: string)

  /** The lines an edit script makes of `before`, if it consumes all of them. */
  ghost function Applied(script: seq<Edit>, before: seq<string>): seq<string>
    requires Fits(script, before)
  {
    if script == [] then []
    else match script[0]
      case Keep => [before[0]] + Applied(script[1..], before[1..])
      case Delete => Applied(script[1..], before[1..])
      case Insert(text) => [text] + Applied(script[1..], before)
  }

  ghost predicate Fits(script: seq<Edit>, before: seq<string>) {
    if script == [] then before == []
    else match script[0]
      case Insert(_) => Fits(script[1..], before)
      case _ => before != [] && Fits(script[1..], before[1..])
  }

  ghost function Cost(script: seq<Edit>): nat {
    if script == [] then 0
    else (if script[0].Keep? then 0 else 1) + Cost(script[1..])
  }

  /** A pairing of the remaining lines, with these two first lines paired or not. */
  lemma AheadOf(p: Pairs, a: seq<string>, b: seq<string>, m: nat, n: nat, i: nat, j: nat) returns (q: Pairs)
    requires m <= |a| && n <= |b| && m <= 1 && n <= 1
    requires m == 1 && n == 1 ==> a[0] == b[0]
    requires PairsUp(p, a[m..], b[n..], i + m, j + n)
    ensures PairsUp(q, a, b, i, j)
    ensures |q| == |p| + if m == 1 && n == 1 then 1 else 0
  {
    var first: Pairs := if m == 1 && n == 1 then [(i, j)] else [];
    JoinPairs(first, p, a, b, m, n, i, j);
    q := first + p;
  }

  /** The lines a script keeps, as a pairing. */
  lemma {:induction false} KeptLines(script: seq<Edit>, before: seq<string>, i: nat, j: nat) returns (p: Pairs)
    requires Fits(script, before)
    ensures PairsUp(p, before, Applied(script, before), i, j)
    ensures Cost(script) + 2 * |p| == |before| + |Applied(script, before)|
  {
    if script == [] {
      p := [];
    } else {
      var after := Applied(script, before);
      var m := if script[0].Insert? then 0 else 1;
      var n := if script[0].Delete? then 0 else 1;
      p := KeptLines(script[1..], before[m..], i + m, j + n);
      assert before[0..] == before && after[n..] == Applied(script[1..], before[m..]);
      p := AheadOf(p, before, after, m, n, i, j);
    }
  }

  /** No edit script changes fewer lines than those a longest pairing leaves out. */
  lemma NoScriptIsCheaper(script: seq<Edit>, before: seq<string>)
    requires Fits(script, before)
    ensures |before| + |Applied(script, before)| - 2 * Length(before, Applied(script, before)) <= Cost(script)
  {
    var p := KeptLines(script, before, 0, 0);
    LengthIsUpperBound(p, before, Applied(script, before), 0, 0);
  }
}
