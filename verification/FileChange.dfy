/**
  The change shown for one edited file: its two texts cut into lines, a
  longest pairing of equal lines, the edit script the pairing induces and the
  hunks kept of that script.
 */
module FileChange {
  import opened Strings
  import opened Wrappers
  import opened Alignment

  const MAX_DIFF_BYTES: nat := 1024 * 1024
  const MAX_DIFF_LINES: nat := 20_000
  const MAX_ALIGNMENT_CELLS: nat := 2_000_000

  datatype Kind = Context | Removed | Added

  datatype Entry = Entry(kind: Kind, oldLine: Option<nat>, newLine: Option<nat>, text: string, noNewline: bool)

  datatype Change = Change(
    added: nat,
    removed: nat,
    created: bool,
    hunks: seq<seq<Entry>>,
    endingChange: Option<EndingChange>,
    finalNewline: Option<bool>)

  datatype Ending = NoEnding | Lf | CrLf

  datatype Style = OnlyLf | OnlyCrLf | MixedStyle

  datatype EndingChange = Restyled(from: Style, to: Style) | MixedUpdated

  datatype Line = Line(text: string, ending: Ending)

  // ----- Lines

  function NewlineAt(text: string): (n: nat)
    ensures n <= |text| && '\n' !in text[..n]
    ensures n < |text| ==> text[n] == '\n'
  {
    if text == [] || text[0] == '\n' then 0 else
      var n := NewlineAt(text[1..]) + 1;
      assert text[..n] == [text[0]] + text[1..][..n - 1];
      n
  }

  /** Pieces ending with a newline lose it, and the carriage return before it;
      no piece is empty, so the source's filter drops nothing. */
  function Lines(text: string): seq<Line>
    decreases |text|
  {
    if text == [] then []
    else
      var n := NewlineAt(text);
      if n == |text| then [Line(text, NoEnding)]
      else if n > 0 && text[n - 1] == '\r' then [Line(text[..n - 1], CrLf)] + Lines(text[n + 1..])
      else [Line(text[..n], Lf)] + Lines(text[n + 1..])
  }

  function Spelled(line: Line): string {
    line.text + match line.ending case NoEnding => "" case Lf => "\n" case CrLf => "\r\n"
  }

  function Joined(lines: seq<Line>): string {
    if lines == [] then "" else Spelled(lines[0]) + Joined(lines[1..])
  }

  /** What a list of lines cut from a text looks like. */
  ghost predicate WellCut(lines: seq<Line>) {
    lines == [] || (CutLine(lines[0], |lines| == 1) && WellCut(lines[1..]))
  }

  ghost predicate CutLine(line: Line, last: bool) {
    && '\n' !in line.text
    && (line.ending == Lf ==> line.text == [] || line.text[|line.text| - 1] != '\r')
    && (line.ending == NoEnding ==> last && line.text != [])
  }

  /** The first line of a nonempty text and what follows it. */
  lemma FirstLine(text: string) returns (line: Line, rest: string)
    requires text != []
    ensures text == Spelled(line) + rest && |rest| < |text|
    ensures CutLine(line, rest == []) && Lines(text) == [line] + Lines(rest)
  {
    hide NewlineAt;
    var n := NewlineAt(text);
    if n == |text| {
      line, rest := Line(text, NoEnding), [];
      assert text[..n] == text && Spelled(line) + rest == text;
      assert [line] + Lines(rest) == [line];
    } else if n > 0 && text[n - 1] == '\r' {
      line, rest := Line(text[..n - 1], CrLf), text[n + 1..];
      assert text[..n] == text[..n - 1] + ['\r'];
      assert text == text[..n - 1] + "\r\n" + rest;
    } else {
      line, rest := Line(text[..n], Lf), text[n + 1..];
      assert text == text[..n] + "\n" + rest;
    }
  }

  lemma {:induction false} LinesSpellTheText(text: string)
    ensures Joined(Lines(text)) == text && WellCut(Lines(text))
    decreases |text|
  {
    if text != [] {
      var line, rest := FirstLine(text);
      LinesSpellTheText(rest);
      assert Lines(text)[1..] == Lines(rest);
      assert rest == [] <==> Lines(rest) == [];
    }
  }

  lemma {:induction false} NewlineAfter(body: string, rest: string)
    requires '\n' !in body && (rest == [] || rest[0] == '\n')
    ensures NewlineAt(body + rest) == |body|
  {
    if body == [] {
      assert body + rest == rest;
    } else {
      assert (body + rest)[1..] == body[1..] + rest;
      NewlineAfter(body[1..], rest);
    }
  }

  /** Cutting the first line off what it was joined to. */
  lemma CutOff(line: Line, rest: string)
    requires CutLine(line, rest == [])
    ensures Lines(Spelled(line) + rest) == [line] + Lines(rest)
  {
    var text := Spelled(line) + rest;
    var body := line.text + if line.ending == CrLf then ['\r'] else [];
    if line.ending == NoEnding {
      assert text == body + [] == line.text;
      NewlineAfter(body, []);
    } else {
      assert text == body + (['\n'] + rest);
      NewlineAfter(body, ['\n'] + rest);
      assert text[|body| + 1..] == rest;
      assert line.ending == CrLf ==> text[..|body| - 1] == line.text;
      assert line.ending == Lf ==> text[..|body|] == line.text;
    }
  }

  /** The lines of a text are its only well-formed cutting. */
  lemma {:induction false} CuttingIsUnique(lines: seq<Line>)
    requires WellCut(lines)
    ensures Lines(Joined(lines)) == lines
  {
    if lines != [] {
      CuttingIsUnique(lines[1..]);
      CutOff(lines[0], Joined(lines[1..]));
    }
  }

  function Texts(lines: seq<Line>): (texts: seq<string>)
    ensures |texts| == |lines| && forall k | 0 <= k < |lines| :: texts[k] == lines[k].text
  {
    seq(|lines|, k requires 0 <= k < |lines| => lines[k].text)
  }

  // ----- Pairing the lines

  function CommonStart(a: seq<string>, b: seq<string>): (n: nat)
    ensures n <= |a| && n <= |b|
  {
    if a == [] || b == [] || a[0] != b[0] then 0 else 1 + CommonStart(a[1..], b[1..])
  }

  function CommonTail(a: seq<string>, b: seq<string>): (n: nat)
    ensures n <= |a| && n <= |b|
  {
    if a == [] || b == [] || a[|a| - 1] != b[|b| - 1] then 0
    else 1 + CommonTail(a[..|a| - 1], b[..|b| - 1])
  }

  /** What is left between the longest common start and, after it, the longest
      common end. */
  function Middle(before: seq<string>, after: seq<string>): (seq<string>, seq<string>) {
    var n := CommonStart(before, after);
    var x, y := before[n..], after[n..];
    var t := CommonTail(x, y);
    (x[..|x| - t], y[..|y| - t])
  }

  predicate TooManyCells(before: seq<string>, after: seq<string>) {
    var (left, right) := Middle(before, after);
    (exists text | text in right :: text in left) && |left| * |right| > MAX_ALIGNMENT_CELLS
  }

  lemma {:induction false} StartIs(a: seq<string>, b: seq<string>, p: nat)
    requires p <= |a| && p <= |b| && a[..p] == b[..p] && (p == |a| || p == |b| || a[p] != b[p])
    ensures CommonStart(a, b) == p
    decreases p
  {
    if p > 0 {
      assert a[0] == a[..p][0] == b[..p][0] == b[0];
      assert a[1..][..p - 1] == a[..p][1..] == b[..p][1..] == b[1..][..p - 1];
      StartIs(a[1..], b[1..], p - 1);
    }
  }

  lemma {:induction false} TailIs(x: seq<string>, y: seq<string>, end: seq<string>)
    requires x == [] || y == [] || x[|x| - 1] != y[|y| - 1]
    ensures CommonTail(x + end, y + end) == |end|
    decreases |end|
  {
    if end == [] {
      assert x + end == x && y + end == y;
      TailEnds(x, y);
    } else {
      var n := |end| - 1;
      TailIs(x, y, end[..n]);
      assert (x + end)[..|x| + n] == x + end[..n] && (y + end)[..|y| + n] == y + end[..n];
    }
  }

  /** Between the longest common start and, after it, the longest common end the
      alignment gives up exactly when there is a line in common and more than two
      million pairs of lines. */
  lemma GivesUpMeans(start: seq<string>, x: seq<string>, y: seq<string>, end: seq<string>)
    requires x + end == [] || y + end == [] || (x + end)[0] != (y + end)[0]
    requires x == [] || y == [] || x[|x| - 1] != y[|y| - 1]
    ensures TooManyCells(start + (x + end), start + (y + end)) <==>
            (exists text :: text in x && text in y) && |x| * |y| > 2000000
  {
    MiddleIs(start, x, y, end);
    hide Middle;
  }

  lemma MiddleIs(start: seq<string>, x: seq<string>, y: seq<string>, end: seq<string>)
    requires x + end == [] || y + end == [] || (x + end)[0] != (y + end)[0]
    requires x == [] || y == [] || x[|x| - 1] != y[|y| - 1]
    ensures Middle(start + (x + end), start + (y + end)) == (x, y)
  {
    hide CommonStart, CommonTail;
    var a, b := start + (x + end), start + (y + end);
    StartIs(a, b, |start|);
    assert a[|start|..] == x + end && b[|start|..] == y + end;
    TailIs(x, y, end);
    assert (x + end)[..|x|] == x && (y + end)[..|y|] == y;
  }

  /** Pairs the lines of the common start. */
  method LeadingPairs(before: seq<string>, after: seq<string>) returns (paired: Pairs, prefix: nat)
    ensures prefix == CommonStart(before, after) && before[..prefix] == after[..prefix]
    ensures |paired| == prefix && forall k | 0 <= k < |paired| :: paired[k] == (k, k)
  {
    prefix, paired := 0, [];
    while prefix < |before| && prefix < |after| && before[prefix] == after[prefix]
      invariant prefix <= |before| && prefix <= |after|
      invariant before[..prefix] == after[..prefix]
      invariant CommonStart(before, after) == prefix + CommonStart(before[prefix..], after[prefix..])
      invariant |paired| == prefix && forall k | 0 <= k < |paired| :: paired[k] == (k, k)
    {
      assert before[prefix..][1..] == before[prefix + 1..] && after[prefix..][1..] == after[prefix + 1..];
      paired := paired + [(prefix, prefix)];
      prefix := prefix + 1;
    }
  }

  /** Where the common end of what follows the common start begins. */
  method TrailingLines(x: seq<string>, y: seq<string>) returns (m: nat, n: nat)
    ensures m <= |x| && n <= |y| && x[m..] == y[n..] && |x| - m == |y| - n == CommonTail(x, y)
  {
    hide CommonTail;
    m, n := |x|, |y|;
    assert x[..m] == x && y[..n] == y;
    while m > 0 && n > 0 && x[m - 1] == y[n - 1]
      invariant m <= |x| && n <= |y| && |x| - m == |y| - n && x[m..] == y[n..]
      invariant CommonTail(x, y) == |x| - m + CommonTail(x[..m], y[..n])
    {
      TailStep(x, y, m, n);
      assert x[m - 1..] == [x[m - 1]] + x[m..] && y[n - 1..] == [y[n - 1]] + y[n..];
      m, n := m - 1, n - 1;
    }
    TailEnds(x[..m], y[..n]);
  }

  lemma TailEnds(x: seq<string>, y: seq<string>)
    requires x == [] || y == [] || x[|x| - 1] != y[|y| - 1]
    ensures CommonTail(x, y) == 0
  {
  }

  lemma TailStep(x: seq<string>, y: seq<string>, m: nat, n: nat)
    requires 0 < m <= |x| && 0 < n <= |y| && x[m - 1] == y[n - 1]
    ensures CommonTail(x[..m], y[..n]) == 1 + CommonTail(x[..m - 1], y[..n - 1])
  {
    assert x[..m][..m - 1] == x[..m - 1] && y[..n][..n - 1] == y[..n - 1];
  }

  /** Pairs the common start and finds where the common end begins. */
  method CommonEnds(before: seq<string>, after: seq<string>)
    returns (paired: Pairs, prefix: nat, beforeEnd: nat, afterEnd: nat)
    ensures prefix <= beforeEnd <= |before| && prefix <= afterEnd <= |after|
    ensures |paired| == prefix && forall k | 0 <= k < |paired| :: paired[k] == (k, k)
    ensures before[..prefix] == after[..prefix] && before[beforeEnd..] == after[afterEnd..]
    ensures (before[prefix..beforeEnd], after[prefix..afterEnd]) == Middle(before, after)
  {
    hide CommonStart, CommonTail;
    paired, prefix := LeadingPairs(before, after);
    var x, y := before[prefix..], after[prefix..];
    var m, n := TrailingLines(x, y);
    beforeEnd, afterEnd := prefix + m, prefix + n;
    assert x[..m] == before[prefix..beforeEnd] && y[..n] == after[prefix..afterEnd];
    assert x[m..] == before[beforeEnd..] && y[n..] == after[afterEnd..];
  }

  /** A longest pairing of the lines between the common ends. */
  method MiddlePairs(left: seq<string>, right: seq<string>, prefix: nat, paired: Pairs) returns (r: Option<Pairs>)
    ensures r.Some? ==> paired <= r.value && PairsUp(r.value[|paired|..], left, right, prefix, prefix)
    ensures r.Some? ==> |r.value| == |paired| + Length(left, right)
    ensures r.None? <==> (exists text | text in right :: text in left) && |left| * |right| > MAX_ALIGNMENT_CELLS
  {
    SomethingInCommon(left, right);
    if exists text | text in right :: text in left {
      if |left| * |right| > MAX_ALIGNMENT_CELLS {
        return None;
      }
      var extended := Matches(left, right, prefix, prefix, paired);
      return Some(extended);
    }
    return Some(paired);
  }

  /** Pairs equal leading lines, equal trailing lines and, in between, a
      longest pairing; gives up when that part is too large to align. */
  method Paired(before: seq<string>, after: seq<string>) returns (r: Option<Pairs>)
    ensures r.Some? ==> PairsUp(r.value, before, after, 0, 0) && |r.value| == Length(before, after)
    ensures r.None? <==> TooManyCells(before, after)
  {
    hide PairsUp, Length, Middle;
    var head, prefix, beforeEnd, afterEnd := CommonEnds(before, after);
    var body := MiddlePairs(before[prefix..beforeEnd], after[prefix..afterEnd], prefix, head);
    if body.None? {
      return None;
    }
    var tail: Pairs := [];
    for index := 0 to |before| - beforeEnd
      invariant |tail| == index && forall k | 0 <= k < |tail| :: tail[k] == (beforeEnd + k, afterEnd + k)
    {
      tail := tail + [(beforeEnd + index, afterEnd + index)];
    }
    TrimmedPairing(before, after, prefix, beforeEnd, afterEnd, head, body.value[prefix..], tail);
    assert body.value == head + body.value[prefix..];
    return Some(body.value + tail);
  }

  lemma SamePositions(p: Pairs, a: seq<string>, i: nat, j: nat)
    requires |p| == |a| && forall k | 0 <= k < |p| :: p[k] == (i + k, j + k)
    ensures PairsUp(p, a, a, i, j)
  {
  }

  /** Trimming equal ends keeps a pairing longest. */
  lemma TrimmedPairing(before: seq<string>, after: seq<string>, prefix: nat, beforeEnd: nat, afterEnd: nat,
                       head: Pairs, middle: Pairs, tail: Pairs)
    requires prefix <= beforeEnd <= |before| && prefix <= afterEnd <= |after|
    requires before[..prefix] == after[..prefix] && before[beforeEnd..] == after[afterEnd..]
    requires |head| == prefix && forall k | 0 <= k < |head| :: head[k] == (k, k)
    requires PairsUp(middle, before[prefix..beforeEnd], after[prefix..afterEnd], prefix, prefix)
    requires |middle| == Length(before[prefix..beforeEnd], after[prefix..afterEnd])
    requires |tail| == |before| - beforeEnd
    requires forall k | 0 <= k < |tail| :: tail[k] == (beforeEnd + k, afterEnd + k)
    ensures PairsUp(head + middle + tail, before, after, 0, 0)
    ensures |head + middle + tail| == Length(before, after)
  {
    hide PairsUp, Length;
    TrimmedFront(before, after, prefix, beforeEnd, afterEnd, head, middle);
    PairedEnd(before, after, beforeEnd, afterEnd, head + middle, tail);
  }

  lemma TrimmedFront(before: seq<string>, after: seq<string>, prefix: nat, beforeEnd: nat, afterEnd: nat,
                     head: Pairs, middle: Pairs)
    requires prefix <= beforeEnd <= |before| && prefix <= afterEnd <= |after| && before[..prefix] == after[..prefix]
    requires |head| == prefix && forall k | 0 <= k < |head| :: head[k] == (k, k)
    requires PairsUp(middle, before[prefix..beforeEnd], after[prefix..afterEnd], prefix, prefix)
    requires |middle| == Length(before[prefix..beforeEnd], after[prefix..afterEnd])
    ensures PairsUp(head + middle, before[..beforeEnd], after[..afterEnd], 0, 0)
    ensures |head + middle| == Length(before[..beforeEnd], after[..afterEnd])
  {
    hide PairsUp, Length;
    TwoParts(before, prefix, beforeEnd);
    TwoParts(after, prefix, afterEnd);
    PairedFront(before[..prefix], before[prefix..beforeEnd], after[prefix..afterEnd], head, middle);
  }

  lemma PairedFront(x: seq<string>, left: seq<string>, right: seq<string>, head: Pairs, middle: Pairs)
    requires |head| == |x| && forall k | 0 <= k < |head| :: head[k] == (k, k)
    requires PairsUp(middle, left, right, |x|, |x|) && |middle| == Length(left, right)
    ensures PairsUp(head + middle, x + left, x + right, 0, 0) && |head + middle| == Length(x + left, x + right)
  {
    hide PairsUp, Length;
    SamePositions(head, x, 0, 0);
    JoinEnds(x, left, right, head, middle);
    CommonPrefix(left, right, x);
  }

  lemma PairedEnd(a: seq<string>, b: seq<string>, i: nat, j: nat, p: Pairs, tail: Pairs)
    requires i <= |a| && j <= |b| && a[i..] == b[j..]
    requires PairsUp(p, a[..i], b[..j], 0, 0) && |p| == Length(a[..i], b[..j])
    requires |tail| == |a| - i && forall k | 0 <= k < |tail| :: tail[k] == (i + k, j + k)
    ensures PairsUp(p + tail, a, b, 0, 0) && |p + tail| == Length(a, b)
  {
    hide PairsUp, Length;
    assert a == a[..i] + a[i..] && b == b[..j] + a[i..];
    SamePositions(tail, a[i..], i, j);
    JoinTail(a[..i], b[..j], a[i..], p, tail);
    CommonSuffix(a[..i], b[..j], a[i..]);
  }

  lemma TwoParts(lines: seq<string>, i: nat, j: nat)
    requires i <= j <= |lines|
    ensures lines[..i] + lines[i..j] == lines[..j]
  {
  }

  lemma JoinTail(l: seq<string>, r: seq<string>, y: seq<string>, p: Pairs, tail: Pairs)
    requires PairsUp(p, l, r, 0, 0) && PairsUp(tail, y, y, |l|, |r|)
    ensures PairsUp(p + tail, l + y, r + y, 0, 0)
  {
    hide PairsUp;
    assert (l + y)[..|l|] == l && (r + y)[..|r|] == r;
    assert (l + y)[|l|..] == y && (r + y)[|r|..] == y;
    JoinPairs(p, tail, l + y, r + y, |l|, |r|, 0, 0);
  }

  lemma JoinEnds(x: seq<string>, left: seq<string>, right: seq<string>, head: Pairs, middle: Pairs)
    requires PairsUp(head, x, x, 0, 0) && PairsUp(middle, left, right, |x|, |x|)
    ensures PairsUp(head + middle, x + left, x + right, 0, 0)
  {
    hide PairsUp;
    var l, r := x + left, x + right;
    assert l[..|x|] == x && r[..|x|] == x;
    assert l[|x|..] == left && r[|x|..] == right;
    JoinPairs(head, middle, l, r, |x|, |x|, 0, 0);
  }

  // ----- The edit script

  function OldSide(entries: seq<Entry>): seq<string> {
    if entries == [] then []
    else
      var last := entries[|entries| - 1];
      OldSide(entries[..|entries| - 1]) + if last.kind == Added then [] else [last.text]
  }

  function NewSide(entries: seq<Entry>): seq<string> {
    if entries == [] then []
    else
      var last := entries[|entries| - 1];
      NewSide(entries[..|entries| - 1]) + if last.kind == Removed then [] else [last.text]
  }

  function Count(entries: seq<Entry>, kind: Kind): nat {
    if entries == [] then 0
    else Count(entries[..|entries| - 1], kind) + if entries[|entries| - 1].kind == kind then 1 else 0
  }

  /** The entry for position `o` of the old lines and `n` of the new ones. */
  ghost predicate EntryAt(e: Entry, before: seq<Line>, after: seq<Line>, o: nat, n: nat) {
    match e.kind
    case Removed =>
      && o < |before|
      && e.oldLine == Some(o + 1) && e.newLine == None && e.text == before[o].text
      && e.noNewline == (o + 1 == |before| && before[o].ending == NoEnding)
    case Added =>
      && n < |after|
      && e.oldLine == None && e.newLine == Some(n + 1) && e.text == after[n].text
      && e.noNewline == (n + 1 == |after| && after[n].ending == NoEnding)
    case Context =>
      && o < |before| && n < |after|
      && e.oldLine == Some(o + 1) && e.newLine == Some(n + 1) && e.text == before[o].text == after[n].text
      && e.noNewline == (n + 1 == |after| && after[n].ending == NoEnding)
  }

  /** Every entry carries exactly the line numbers its place in the script implies. */
  ghost predicate Numbered(entries: seq<Entry>, before: seq<Line>, after: seq<Line>) {
    forall k | 0 <= k < |entries| ::
      EntryAt(entries[k], before, after, |OldSide(entries[..k])|, |NewSide(entries[..k])|)
  }

  /** The script accounts for the first `o` old and the first `n` new lines. */
  ghost predicate Accounts(entries: seq<Entry>, before: seq<Line>, after: seq<Line>, o: nat, n: nat) {
    && o <= |before| && n <= |after|
    && OldSide(entries) == Texts(before[..o])
    && NewSide(entries) == Texts(after[..n])
    && Numbered(entries, before, after)
  }

  lemma OneMore(entries: seq<Entry>, e: Entry, before: seq<Line>, after: seq<Line>, o: nat, n: nat)
    requires Accounts(entries, before, after, o, n)
    requires EntryAt(e, before, after, o, n)
    ensures Accounts(entries + [e], before, after,
                     if e.kind == Added then o else o + 1, if e.kind == Removed then n else n + 1)
    ensures Count(entries + [e], Context) == Count(entries, Context) + if e.kind == Context then 1 else 0
  {
    var all := entries + [e];
    assert all[..|all| - 1] == entries;
    if e.kind != Added { assert Texts(before[..o + 1]) == Texts(before[..o]) + [before[o].text]; }
    if e.kind != Removed { assert Texts(after[..n + 1]) == Texts(after[..n]) + [after[n].text]; }
    forall k | 0 <= k < |all|
      ensures EntryAt(all[k], before, after, |OldSide(all[..k])|, |NewSide(all[..k])|)
    {
      if k < |entries| {
        assert all[..k] == entries[..k];
      } else {
        assert all[..k] == entries;
      }
    }
  }

  /** Lines removed up to one pair, then lines added up to it. */
  method UpTo(before: seq<Line>, after: seq<Line>, entries: seq<Entry>, o: nat, n: nat, oldMatch: nat, newMatch: nat)
    returns (more: seq<Entry>)
    requires Accounts(entries, before, after, o, n)
    requires o <= oldMatch <= |before| && n <= newMatch <= |after|
    ensures Accounts(more, before, after, oldMatch, newMatch)
    ensures Count(more, Context) == Count(entries, Context)
  {
    more := entries;
    var oldAt, newAt := o, n;
    while oldAt < oldMatch
      invariant oldAt <= oldMatch
      invariant Accounts(more, before, after, oldAt, newAt) && Count(more, Context) == Count(entries, Context)
    {
      var e := Entry(Removed, Some(oldAt + 1), None, before[oldAt].text,
                     oldAt + 1 == |before| && before[oldAt].ending == NoEnding);
      OneMore(more, e, before, after, oldAt, newAt);
      more := more + [e];
      oldAt := oldAt + 1;
    }
    while newAt < newMatch
      invariant newAt <= newMatch
      invariant Accounts(more, before, after, oldAt, newAt) && Count(more, Context) == Count(entries, Context)
    {
      var e := Entry(Added, None, Some(newAt + 1), after[newAt].text,
                     newAt + 1 == |after| && after[newAt].ending == NoEnding);
      OneMore(more, e, before, after, oldAt, newAt);
      more := more + [e];
      newAt := newAt + 1;
    }
  }

  method Script(before: seq<Line>, after: seq<Line>, paired: Pairs) returns (entries: seq<Entry>)
    requires PairsUp(paired, Texts(before), Texts(after), 0, 0)
    ensures Accounts(entries, before, after, |before|, |after|)
    ensures Count(entries, Context) == |paired|
  {
    entries := [];
    var oldAt, newAt := 0, 0;
    for i := 0 to |paired|
      invariant Accounts(entries, before, after, oldAt, newAt)
      invariant Count(entries, Context) == i
      invariant i < |paired| ==> oldAt <= paired[i].0 && newAt <= paired[i].1
    {
      var (oldMatch, newMatch) := paired[i];
      assert Texts(before)[paired[i].0 - 0] == Texts(after)[paired[i].1 - 0];
      entries := UpTo(before, after, entries, oldAt, newAt, oldMatch, newMatch);
      var e := Entry(Context, Some(oldMatch + 1), Some(newMatch + 1), before[oldMatch].text,
                     newMatch + 1 == |after| && after[newMatch].ending == NoEnding);
      OneMore(entries, e, before, after, oldMatch, newMatch);
      entries := entries + [e];
      oldAt, newAt := oldMatch + 1, newMatch + 1;
    }
    entries := UpTo(before, after, entries, oldAt, newAt, |before|, |after|);
  }

  lemma {:induction false} SidesCount(entries: seq<Entry>)
    ensures |OldSide(entries)| == Count(entries, Context) + Count(entries, Removed)
    ensures |NewSide(entries)| == Count(entries, Context) + Count(entries, Added)
  {
    if entries != [] {
      SidesCount(entries[..|entries| - 1]);
    }
  }

  lemma {:induction false} SidesConcat(a: seq<Entry>, b: seq<Entry>)
    ensures OldSide(a + b) == OldSide(a) + OldSide(b) && NewSide(a + b) == NewSide(a) + NewSide(b)
    decreases |b|
  {
    hide OldSide, NewSide;
    if b == [] {
      NoSides();
      assert a + b == a;
    } else {
      var rest, last := b[..|b| - 1], b[|b| - 1];
      SidesConcat(a, rest);
      SidesOfLast(a + rest, last);
      SidesOfLast(rest, last);
      assert a + b == (a + rest) + [last] && b == rest + [last];
    }
  }

  lemma NoSides()
    ensures OldSide([]) == [] && NewSide([]) == []
  {
  }

  lemma SidesOfLast(a: seq<Entry>, e: Entry)
    ensures OldSide(a + [e]) == OldSide(a) + if e.kind == Added then [] else [e.text]
    ensures NewSide(a + [e]) == NewSide(a) + if e.kind == Removed then [] else [e.text]
  {
    assert (a + [e])[..|a|] == a;
  }

  // ----- Hunks

  type Ranges = seq<(nat, nat)>

  /** Within three entries of a change. */
  ghost predicate NearChange(entries: seq<Entry>, k: int, bound: nat) {
    exists m | 0 <= m < |entries| && m < bound :: entries[m].kind != Context && m - 3 <= k <= m + 3
  }

  ghost predicate Covered(ranges: Ranges, k: int) {
    exists r | 0 <= r < |ranges| :: ranges[r].0 <= k < ranges[r].1
  }

  /** Nonempty ranges in order, with at least one entry between two of them. */
  ghost predicate Separated(ranges: Ranges, limit: nat) {
    && (forall r | 0 <= r < |ranges| :: ranges[r].0 < ranges[r].1 <= limit)
    && (forall r, s | 0 <= r < s < |ranges| :: ranges[r].1 < ranges[s].0)
  }

  ghost predicate CoversChanges(ranges: Ranges, entries: seq<Entry>, bound: nat) {
    forall k | 0 <= k < |entries| :: Covered(ranges, k) <==> NearChange(entries, k, bound)
  }

  function RangeStart(index: nat): nat { if index < 3 then 0 else index - 3 }

  function RangeEnd(index: nat, limit: nat): nat { if index + 4 < limit then index + 4 else limit }

  /** The ranges after the change at `index` extends the last one or adds one. */
  ghost function WithChange(ranges: Ranges, index: nat, limit: nat): Ranges
    requires index < limit
  {
    if ranges != [] && RangeStart(index) <= ranges[|ranges| - 1].1
    then ranges[..|ranges| - 1] + [(ranges[|ranges| - 1].0, RangeEnd(index, limit))]
    else ranges + [(RangeStart(index), RangeEnd(index, limit))]
  }

  lemma OneMoreCovered(ranges: Ranges, index: nat, limit: nat, k: nat)
    requires index < limit && k < limit
    requires forall r | 0 <= r < |ranges| :: ranges[r].0 <= RangeStart(index) && ranges[r].1 <= RangeEnd(index, limit)
    ensures Covered(WithChange(ranges, index, limit), k) <==> Covered(ranges, k) || index - 3 <= k <= index + 3
  {
    var next := WithChange(ranges, index, limit);
    var last := |next| - 1;
    assert forall r | 0 <= r < last :: next[r] == ranges[r];
    if r :| 0 <= r < |ranges| && ranges[r].0 <= k < ranges[r].1 {
      assert next[r].0 <= k < next[r].1;
    }
    if index - 3 <= k <= index + 3 {
      assert next[last].0 <= k < next[last].1;
    }
    if r :| 0 <= r < |next| && next[r].0 <= k < next[r].1 {
      assert (r < |ranges| && ranges[r].0 <= k < ranges[r].1) || index - 3 <= k <= index + 3;
    }
  }

  lemma StaysSeparated(ranges: Ranges, index: nat, limit: nat)
    requires index < limit && Separated(ranges, limit)
    requires forall r | 0 <= r < |ranges| :: ranges[r].0 <= RangeStart(index) && ranges[r].1 <= RangeEnd(index, limit)
    ensures Separated(WithChange(ranges, index, limit), limit)
  {
    var n := |ranges| - 1;
    if ranges != [] && RangeStart(index) <= ranges[n].1 {
      assert WithChange(ranges, index, limit) == ranges[..n] + [(ranges[n].0, RangeEnd(index, limit))];
    }
  }

  lemma OneMoreChange(ranges: Ranges, entries: seq<Entry>, index: nat)
    requires index < |entries| && entries[index].kind != Context
    requires Separated(ranges, |entries|) && CoversChanges(ranges, entries, index)
    requires forall r | 0 <= r < |ranges| ::
               ranges[r].0 <= RangeStart(index) && ranges[r].1 <= RangeEnd(index, |entries|)
    ensures Separated(WithChange(ranges, index, |entries|), |entries|)
    ensures CoversChanges(WithChange(ranges, index, |entries|), entries, index + 1)
  {
    hide Covered, NearChange, Separated, WithChange;
    StaysSeparated(ranges, index, |entries|);
    forall k | 0 <= k < |entries|
      ensures Covered(WithChange(ranges, index, |entries|), k) <==> NearChange(entries, k, index + 1)
    {
      OneMoreCovered(ranges, index, |entries|, k);
      OneMoreNear(entries, k, index);
    }
  }

  lemma OneMoreNear(entries: seq<Entry>, k: int, index: nat)
    requires index < |entries| && entries[index].kind != Context
    ensures NearChange(entries, k, index + 1) <==> NearChange(entries, k, index) || index - 3 <= k <= index + 3
  {
  }

  method HunkRanges(entries: seq<Entry>) returns (ranges: Ranges)
    ensures Separated(ranges, |entries|)
    ensures CoversChanges(ranges, entries, |entries|)
  {
    ranges := [];
    for index := 0 to |entries|
      invariant Separated(ranges, |entries|) && CoversChanges(ranges, entries, index)
      invariant forall r | 0 <= r < |ranges| ::
                  ranges[r].0 <= RangeStart(index) && ranges[r].1 <= RangeEnd(index, |entries|)
    {
      if entries[index].kind == Context {
        assert forall k | 0 <= k < |entries| :: NearChange(entries, k, index + 1) == NearChange(entries, k, index);
        continue;
      }
      var start, end := RangeStart(index), RangeEnd(index, |entries|);
      ghost var earlier := ranges;
      if |ranges| > 0 && start <= ranges[|ranges| - 1].1 {
        ranges := ranges[|ranges| - 1 := (ranges[|ranges| - 1].0, end)];
      } else {
        ranges := ranges + [(start, end)];
      }
      OneMoreChange(earlier, entries, index);
      assert ranges == WithChange(earlier, index, |entries|);
    }
  }

  function Slices(entries: seq<Entry>, ranges: Ranges): (hunks: seq<seq<Entry>>)
    requires forall r | 0 <= r < |ranges| :: ranges[r].0 <= ranges[r].1 <= |entries|
    ensures |hunks| == |ranges|
  {
    seq(|ranges|, r requires 0 <= r < |ranges| => entries[ranges[r].0..ranges[r].1])
  }

  // ----- Applying hunks as a patch

  /** The old line a hunk starts at: its first numbered old line, or where the
      previous hunk ended when it has none. */
  function HunkStart(hunk: seq<Entry>, at: nat): nat {
    if hunk == [] then at
    else match hunk[0].oldLine
      case Some(line) => if line > 0 then line - 1 else 0
      case None => HunkStart(hunk[1..], at)
  }

  /** Applies hunks to the old lines from `at` on, refusing a hunk whose old
      side is not what those lines say. */
  function Patch(before: seq<string>, hunks: seq<seq<Entry>>, at: nat): Option<seq<string>>
    requires at <= |before|
    decreases |hunks|
  {
    if hunks == [] then Some(before[at..])
    else
      var start := HunkStart(hunks[0], at);
      var end := start + |OldSide(hunks[0])|;
      if !(at <= start && end <= |before| && OldSide(hunks[0]) == before[start..end]) then None
      else match Patch(before, hunks[1..], end)
        case None => None
        case Some(rest) => Some(before[at..start] + NewSide(hunks[0]) + rest)
  }

  lemma {:induction false} ContextSides(entries: seq<Entry>)
    requires forall e | e in entries :: e.kind == Context
    ensures OldSide(entries) == NewSide(entries)
  {
    if entries != [] {
      ContextSides(entries[..|entries| - 1]);
    }
  }

  /** A removed or context entry carries the number of old lines before it. */
  lemma NumberedAt(entries: seq<Entry>, before: seq<Line>, after: seq<Line>, s: nat)
    requires s < |entries| && Numbered(entries, before, after)
    ensures EntryAt(entries[s], before, after, |OldSide(entries[..s])|, |NewSide(entries[..s])|)
    ensures entries[s].kind == Added ==> OldSide(entries[..s + 1]) == OldSide(entries[..s])
  {
    assert entries[..s + 1][..s] == entries[..s];
  }

  lemma {:induction false} StartOfSlice(
    entries: seq<Entry>, before: seq<Line>, after: seq<Line>, s: nat, e: nat, at: nat
  )
    requires s <= e <= |entries| && Numbered(entries, before, after)
    ensures HunkStart(entries[s..e], at)
         == if forall k | s <= k < e :: entries[k].kind == Added then at else |OldSide(entries[..s])|
    decreases e - s
  {
    hide Numbered, OldSide, NewSide;
    if s < e {
      var hunk := entries[s..e];
      assert hunk[0] == entries[s];
      NumberedAt(entries, before, after, s);
      if entries[s].kind == Added {
        assert hunk[1..] == entries[s + 1..e];
        StartOfSlice(entries, before, after, s + 1, e, at);
      }
    }
  }

  /** One hunk applied after a gap of unchanged lines. */
  lemma PatchOne(before: seq<string>, hunk: seq<Entry>, hunks: seq<seq<Entry>>, at: nat, rest: seq<string>)
    requires at <= HunkStart(hunk, at) <= HunkStart(hunk, at) + |OldSide(hunk)| <= |before|
    requires OldSide(hunk) == before[HunkStart(hunk, at)..HunkStart(hunk, at) + |OldSide(hunk)|]
    requires Patch(before, hunks, HunkStart(hunk, at) + |OldSide(hunk)|) == Some(rest)
    ensures Patch(before, [hunk] + hunks, at) == Some(before[at..HunkStart(hunk, at)] + NewSide(hunk) + rest)
  {
    assert ([hunk] + hunks)[1..] == hunks;
  }

  /** The part of the script before `c` done, the hunks from range `r` on
      produce the new side of the rest. */
  ghost predicate PatchesFrom(entries: seq<Entry>, before: seq<Line>, ranges: Ranges, r: nat, c: nat)
    requires r <= |ranges| && c <= |entries| && Separated(ranges, |entries|)
  {
    && |OldSide(entries[..c])| <= |before|
    && Patch(Texts(before), Slices(entries, ranges)[r..], |OldSide(entries[..c])|) == Some(NewSide(entries[c..]))
  }

  ghost predicate Laid(entries: seq<Entry>, before: seq<Line>, after: seq<Line>, ranges: Ranges) {
    && Numbered(entries, before, after) && OldSide(entries) == Texts(before)
    && Separated(ranges, |entries|) && CoversChanges(ranges, entries, |entries|)
  }

  lemma {:induction false} PatchRest(
    entries: seq<Entry>, before: seq<Line>, after: seq<Line>, ranges: Ranges, r: nat, c: nat
  )
    requires Laid(entries, before, after, ranges)
    requires r <= |ranges| && c <= |entries| && c == if r == 0 then 0 else ranges[r - 1].1
    ensures PatchesFrom(entries, before, ranges, r, c)
    decreases |ranges| - r
  {
    hide Numbered, CoversChanges;
    if r == |ranges| {
      SplitAt(entries, c);
      OutsideRanges(entries, ranges, r, c, |entries|);
      ContextSides(entries[c..]);
      assert Texts(before)[|OldSide(entries[..c])|..] == OldSide(entries[c..]);
    } else {
      PatchRest(entries, before, after, ranges, r + 1, ranges[r].1);
      PatchStep(entries, before, after, ranges, r, c);
    }
  }

  lemma PatchStep(entries: seq<Entry>, before: seq<Line>, after: seq<Line>, ranges: Ranges, r: nat, c: nat)
    requires Laid(entries, before, after, ranges)
    requires r < |ranges| && c == if r == 0 then 0 else ranges[r - 1].1
    requires PatchesFrom(entries, before, ranges, r + 1, ranges[r].1)
    ensures c <= |entries| && PatchesFrom(entries, before, ranges, r, c)
  {
    hide Numbered, CoversChanges, OldSide, NewSide, Patch, HunkStart;
    var (s, e) := ranges[r];
    OutsideRanges(entries, ranges, r, c, s);
    var hunk, hunks, at := entries[s..e], Slices(entries, ranges), |OldSide(entries[..c])|;
    OldSlice(entries, c, s);
    OldSlice(entries, s, e);
    RangeBegins(entries, before, after, ranges, r, c);
    PatchOne(Texts(before), hunk, hunks[r + 1..], at, NewSide(entries[e..]));
    assert hunks[r..] == [hunk] + hunks[r + 1..];
    assert NewSide(entries[c..]) == OldSide(entries[c..s]) + NewSide(hunk) + NewSide(entries[e..]) by {
      ContextSides(entries[c..s]);
      NewThrice(entries, c, s, e);
    }
  }

  /** A hunk starts at the old line its range starts at. */
  lemma RangeBegins(entries: seq<Entry>, before: seq<Line>, after: seq<Line>, ranges: Ranges, r: nat, c: nat)
    requires Laid(entries, before, after, ranges)
    requires r < |ranges| && c == if r == 0 then 0 else ranges[r - 1].1
    ensures c <= ranges[r].0 <= ranges[r].1 <= |entries|
    ensures HunkStart(entries[ranges[r].0..ranges[r].1], |OldSide(entries[..c])|) == |OldSide(entries[..ranges[r].0])|
  {
    hide Numbered, CoversChanges;
    OutsideRanges(entries, ranges, r, c, ranges[r].0);
    FirstOfRange(entries, ranges, r);
    StartOfSlice(entries, before, after, ranges[r].0, ranges[r].1, |OldSide(entries[..c])|);
  }

  /** The old side of a slice is a slice of the old side. */
  lemma OldSlice(entries: seq<Entry>, c: nat, s: nat)
    requires c <= s <= |entries|
    ensures |OldSide(entries[..c])| <= |OldSide(entries[..s])| <= |OldSide(entries)|
    ensures |OldSide(entries[..s])| == |OldSide(entries[..c])| + |OldSide(entries[c..s])|
    ensures OldSide(entries[c..s]) == OldSide(entries)[|OldSide(entries[..c])|..|OldSide(entries[..s])|]
  {
    SplitBetween(entries, c, s);
    SplitAt(entries, s);
  }

  lemma NewThrice(entries: seq<Entry>, c: nat, s: nat, e: nat)
    requires c <= s <= e <= |entries|
    ensures NewSide(entries[c..]) == NewSide(entries[c..s]) + NewSide(entries[s..e]) + NewSide(entries[e..])
  {
    var x, y, z := entries[c..s], entries[s..e], entries[e..];
    assert entries[c..] == x + y + z;
    SidesConcat(x + y, z);
    SidesConcat(x, y);
  }

  lemma SplitAt(entries: seq<Entry>, c: nat)
    requires c <= |entries|
    ensures OldSide(entries) == OldSide(entries[..c]) + OldSide(entries[c..])
    ensures NewSide(entries) == NewSide(entries[..c]) + NewSide(entries[c..])
  {
    assert entries == entries[..c] + entries[c..];
    SidesConcat(entries[..c], entries[c..]);
  }

  lemma SplitBetween(entries: seq<Entry>, c: nat, s: nat)
    requires c <= s <= |entries|
    ensures OldSide(entries[..s]) == OldSide(entries[..c]) + OldSide(entries[c..s])
  {
    assert entries[..s] == entries[..c] + entries[c..s];
    SidesConcat(entries[..c], entries[c..s]);
  }

  /** Entries between two neighbouring ranges lie in no range. */
  lemma BetweenRanges(ranges: Ranges, limit: nat, r: nat, k: nat)
    requires Separated(ranges, limit) && r <= |ranges|
    requires (r == 0 || ranges[r - 1].1 <= k) && (r == |ranges| || k < ranges[r].0)
    ensures !Covered(ranges, k)
  {
    forall t | 0 <= t < |ranges|
      ensures !(ranges[t].0 <= k < ranges[t].1)
    {
      if t < r {
        assert ranges[t].1 <= ranges[r - 1].1;
      } else {
        assert ranges[r].0 <= ranges[t].0;
      }
    }
  }

  /** Between two neighbouring ranges nothing changed. */
  lemma OutsideRanges(entries: seq<Entry>, ranges: Ranges, r: nat, c: nat, s: nat)
    requires Separated(ranges, |entries|) && CoversChanges(ranges, entries, |entries|)
    requires r <= |ranges| && c == if r == 0 then 0 else ranges[r - 1].1
    requires s == if r == |ranges| then |entries| else ranges[r].0
    ensures c <= s <= |entries|
    ensures forall e | e in entries[c..s] :: e.kind == Context
  {
    if 0 < r < |ranges| {
      assert ranges[r - 1].1 < ranges[r].0;
    }
    forall k | c <= k < s
      ensures entries[k].kind == Context
    {
      BetweenRanges(ranges, |entries|, r, k);
      assert !NearChange(entries, k, |entries|);
    }
  }

  /** A range that does not start the script starts with an unchanged line. */
  lemma FirstOfRange(entries: seq<Entry>, ranges: Ranges, r: nat)
    requires Separated(ranges, |entries|) && CoversChanges(ranges, entries, |entries|)
    requires r < |ranges|
    ensures ranges[r].0 == 0 || entries[ranges[r].0].kind == Context
  {
    var s := ranges[r].0;
    if s > 0 {
      assert r > 0 ==> ranges[r - 1].1 < s;
      BetweenRanges(ranges, |entries|, r, s - 1);
      assert !NearChange(entries, s - 1, |entries|);
    }
  }

  // ----- Line endings

  predicate Ends(lines: seq<Line>, ending: Ending) {
    exists k | 0 <= k < |lines| :: lines[k].ending == ending
  }

  function StyleOf(lines: seq<Line>): Option<Style> {
    match (Ends(lines, Lf), Ends(lines, CrLf))
    case (true, true) => Some(MixedStyle)
    case (true, false) => Some(OnlyLf)
    case (false, true) => Some(OnlyCrLf)
    case (false, false) => None
  }

  predicate ChangedEndings(before: seq<Line>, after: seq<Line>, paired: Pairs)
    requires PairsUp(paired, Texts(before), Texts(after), 0, 0)
  {
    exists k | 0 <= k < |paired| ::
      var x, y := before[paired[k].0].ending, after[paired[k].1].ending;
      x != y && x != NoEnding && y != NoEnding
  }

  function EndingChangeOf(before: seq<Line>, after: seq<Line>, paired: Pairs): Option<EndingChange>
    requires PairsUp(paired, Texts(before), Texts(after), 0, 0)
  {
    match (StyleOf(before), StyleOf(after))
    case (Some(from), Some(to)) =>
      if from != to then Some(Restyled(from, to))
      else if from == MixedStyle && ChangedEndings(before, after, paired) then Some(MixedUpdated)
      else None
    case _ => None
  }

  /** A line feed stands behind a carriage return somewhere. */
  predicate HasCrLf(text: string) {
    exists k | 0 < k < |text| :: text[k - 1] == '\r' && text[k] == '\n'
  }

  /** A line feed stands somewhere without a carriage return before it. */
  predicate HasLf(text: string) {
    exists k | 0 <= k < |text| :: text[k] == '\n' && (k > 0 ==> text[k - 1] != '\r')
  }

  predicate Written(text: string, style: Style) {
    match style
    case OnlyLf => HasLf(text) && !HasCrLf(text)
    case OnlyCrLf => HasCrLf(text) && !HasLf(text)
    case MixedStyle => HasLf(text) && HasCrLf(text)
  }

  /** Some pair of lines ends with a line feed alone in one text, and with both
      characters in the other. */
  predicate PairDiffers(before: string, after: string, paired: Pairs)
    requires PairsUp(paired, Texts(Lines(before)), Texts(Lines(after)), 0, 0)
  {
    exists k | 0 <= k < |paired| ::
      var x, y := Lines(before)[paired[k].0].ending, Lines(after)[paired[k].1].ending;
      (x == Lf && y == CrLf) || (x == CrLf && y == Lf)
  }

  /** A new style is reported when all line endings of both texts tell one, and
      an update when both stay mixed but a pair of lines differs. */
  ghost predicate EndingReport(before: string, after: string, paired: Pairs, change: Option<EndingChange>)
    requires PairsUp(paired, Texts(Lines(before)), Texts(Lines(after)), 0, 0)
  {
    && (forall from, to ::
          change == Some(Restyled(from, to)) <==> from != to && Written(before, from) && Written(after, to))
    && (change == Some(MixedUpdated) <==>
        Written(before, MixedStyle) && Written(after, MixedStyle) && PairDiffers(before, after, paired))
  }

  lemma EndsFirst(line: Line, rest: seq<Line>, ending: Ending)
    ensures Ends([line] + rest, ending) <==> line.ending == ending || Ends(rest, ending)
  {
    var lines := [line] + rest;
    if line.ending == ending {
      assert lines[0].ending == ending;
    }
    if k :| 0 <= k < |rest| && rest[k].ending == ending {
      assert lines[k + 1].ending == ending;
    }
  }

  lemma CrLfFirst(line: Line, rest: string)
    requires CutLine(line, rest == [])
    ensures HasCrLf(Spelled(line) + rest) <==> line.ending == CrLf || HasCrLf(rest)
  {
    var n, text := |Spelled(line)|, Spelled(line) + rest;
    if line.ending == CrLf {
      assert text[n - 2] == '\r' && text[n - 1] == '\n';
    }
    if k :| 0 < k < |rest| && rest[k - 1] == '\r' && rest[k] == '\n' {
      assert text[n + k - 1] == '\r' && text[n + k] == '\n';
    }
    if k :| 0 < k < |text| && text[k - 1] == '\r' && text[k] == '\n' {
      if k > n {
        assert rest[k - n - 1] == '\r' && rest[k - n] == '\n';
      }
    }
  }

  /** A line's only line feed is the last character of its ending. */
  lemma BreakOfLine(line: Line, k: nat)
    requires '\n' !in line.text && k < |Spelled(line)| && Spelled(line)[k] == '\n'
    ensures line.ending == Lf || (line.ending == CrLf && k > 0 && Spelled(line)[k - 1] == '\r')
  {
    assert forall i | 0 <= i < |line.text| :: Spelled(line)[i] == line.text[i];
  }

  lemma LfFirst(line: Line, rest: string)
    requires CutLine(line, rest == [])
    ensures HasLf(Spelled(line) + rest) <==> line.ending == Lf || HasLf(rest)
  {
    var n, text := |Spelled(line)|, Spelled(line) + rest;
    if line.ending == Lf {
      assert text[n - 1] == '\n' && (n > 1 ==> text[n - 2] == line.text[n - 2]);
      assert HasLf(text);
    }
    if HasLf(rest) {
      var k :| 0 <= k < |rest| && rest[k] == '\n' && (k > 0 ==> rest[k - 1] != '\r');
      assert text[n + k] == '\n' && (k > 0 ==> text[n + k - 1] == rest[k - 1]);
      assert k == 0 ==> text[n - 1] == '\n';
      assert HasLf(text);
    }
    if HasLf(text) {
      var k :| 0 <= k < |text| && text[k] == '\n' && (k > 0 ==> text[k - 1] != '\r');
      if k >= n {
        assert rest[k - n] == '\n' && (k > n ==> rest[k - n - 1] == text[k - 1]);
        assert HasLf(rest);
      } else {
        BreakOfLine(line, k);
        assert k == 0 || text[k - 1] == Spelled(line)[k - 1];
        assert line.ending == Lf;
      }
    }
  }

  /** The endings of a text's lines are the line breaks it holds. */
  lemma {:induction false} EndingsAreBreaks(text: string)
    ensures Ends(Lines(text), CrLf) <==> HasCrLf(text)
    ensures Ends(Lines(text), Lf) <==> HasLf(text)
    decreases |text|
  {
    hide Lines, Ends, HasCrLf, HasLf, CutLine;
    if text == [] {
      NoLines();
      NothingEnds();
    } else {
      var line, rest := FirstLine(text);
      EndingsAreBreaks(rest);
      EndsFirst(line, Lines(rest), CrLf);
      EndsFirst(line, Lines(rest), Lf);
      CrLfFirst(line, rest);
      LfFirst(line, rest);
    }
  }

  lemma NothingEnds()
    ensures !Ends([], CrLf) && !Ends([], Lf) && !HasCrLf("") && !HasLf("")
  {
  }

  /** What is reported of the line endings. */
  lemma EndingChangeMeans(before: string, after: string, paired: Pairs)
    requires PairsUp(paired, Texts(Lines(before)), Texts(Lines(after)), 0, 0)
    ensures EndingReport(before, after, paired, EndingChangeOf(Lines(before), Lines(after), paired))
  {
    hide Lines, Ends, HasCrLf, HasLf, PairsUp;
    EndingsAreBreaks(before);
    EndingsAreBreaks(after);
    EndingsDiffer(before, after, paired);
    hide PairDiffers, ChangedEndings;
  }

  lemma EndingsDiffer(before: string, after: string, paired: Pairs)
    requires PairsUp(paired, Texts(Lines(before)), Texts(Lines(after)), 0, 0)
    ensures PairDiffers(before, after, paired) <==> ChangedEndings(Lines(before), Lines(after), paired)
  {
    hide Lines;
  }

  predicate EndsWithNewline(text: string) { text != [] && text[|text| - 1] == '\n' }

  /** A text ends with a newline exactly when its last line has an ending. */
  lemma {:induction false} LastEnding(text: string)
    ensures EndsWithNewline(text) <==>
            Lines(text) != [] && Lines(text)[|Lines(text)| - 1].ending != NoEnding
    decreases |text|
  {
    hide Lines, NewlineAt;
    if text == [] {
      NoLines();
    } else {
      var line, rest := FirstLine(text);
      LastEnding(rest);
      if rest == [] {
        NoLines();
        assert text == Spelled(line);
      } else {
        assert text[|text| - 1] == rest[|rest| - 1];
        HasLines(rest);
      }
    }
  }

  lemma NoLines()
    ensures Lines("") == []
  {
  }

  lemma HasLines(text: string)
    requires text != []
    ensures Lines(text) != []
  {
  }

  /** Every line but the last has an ending. */
  lemma {:induction false} InnerEndings(lines: seq<Line>, k: nat)
    requires WellCut(lines) && k + 1 < |lines|
    ensures lines[k].ending != NoEnding
    decreases k
  {
    if k > 0 {
      InnerEndings(lines[1..], k - 1);
    }
  }

  /** A pairing as long as both lists pairs each line with its own position. */
  lemma {:induction false} WholePairing(p: Pairs, a: seq<string>, b: seq<string>, k: nat)
    requires PairsUp(p, a, b, 0, 0) && |p| == |a| == |b| && k < |p|
    ensures p[k] == (k, k)
    decreases |p| - k
  {
    var n := |p| - 1;
    PositionsAtLeast(p, a, b, k);
    if k < n {
      WholePairing(p, a, b, k + 1);
    }
  }

  lemma {:induction false} PositionsAtLeast(p: Pairs, a: seq<string>, b: seq<string>, k: nat)
    requires PairsUp(p, a, b, 0, 0) && k < |p|
    ensures p[k].0 >= k && p[k].1 >= k
  {
    if k > 0 {
      PositionsAtLeast(p, a, b, k - 1);
    }
  }

  /** Equal line texts with the same last ending and no change of endings to
      report are the same lines. */
  lemma SameEndings(before: seq<Line>, after: seq<Line>, paired: Pairs, k: nat)
    requires WellCut(before) && WellCut(after) && Texts(before) == Texts(after) && k < |before|
    requires PairsUp(paired, Texts(before), Texts(after), 0, 0) && |paired| == |before| == |after|
    requires before[|before| - 1].ending == NoEnding <==> after[|after| - 1].ending == NoEnding
    requires EndingChangeOf(before, after, paired) == None
    ensures before[k] == after[k]
  {
    hide EndingChangeOf, WellCut, PairsUp;
    assert before[k].text == Texts(before)[k] == Texts(after)[k] == after[k].text;
    if k + 1 < |before| {
      InnerEndings(before, k);
      InnerEndings(after, k);
    }
    WholePairing(paired, Texts(before), Texts(after), k);
    if before[k].ending != after[k].ending && before[k].ending != NoEnding && after[k].ending != NoEnding {
      ChangeIsReported(before, after, paired, k);
    }
  }

  lemma ChangeIsReported(before: seq<Line>, after: seq<Line>, paired: Pairs, k: nat)
    requires PairsUp(paired, Texts(before), Texts(after), 0, 0) && k < |before| && k < |after| && k < |paired|
    requires paired[k] == (k, k) && before[k].ending != after[k].ending
    requires before[k].ending != NoEnding && after[k].ending != NoEnding
    ensures EndingChangeOf(before, after, paired) != None
  {
    assert Ends(before, before[k].ending) && Ends(after, after[k].ending);
    assert ChangedEndings(before, after, paired);
  }

  /** Nothing is left to show exactly when the texts are equal. */
  lemma SilentExactlyWhenEqual(before: string, after: string, paired: Pairs)
    requires PairsUp(paired, Texts(Lines(before)), Texts(Lines(after)), 0, 0)
    requires |paired| == Length(Texts(Lines(before)), Texts(Lines(after)))
    ensures before == after <==>
            && |Lines(before)| == |Lines(after)| == |paired|
            && EndsWithNewline(before) == EndsWithNewline(after)
            && EndingChangeOf(Lines(before), Lines(after), paired) == None
  {
    hide Lines, Length, EndsWithNewline, EndingChangeOf;
    var x, y := Lines(before), Lines(after);
    if before == after {
      EqualTexts(Texts(x));
      EqualEndings(x, paired);
    }
    if |x| == |y| == |paired| && EndsWithNewline(before) == EndsWithNewline(after)
       && EndingChangeOf(x, y, paired) == None {
      LinesSpellTheText(before);
      LinesSpellTheText(after);
      LastEnding(before);
      LastEnding(after);
      forall k | 0 <= k < |x|
        ensures Texts(x)[k] == Texts(y)[k]
      {
        WholePairing(paired, Texts(x), Texts(y), k);
      }
      assert Texts(x) == Texts(y);
      forall k | 0 <= k < |x|
        ensures x[k] == y[k]
      {
        SameEndings(x, y, paired, k);
      }
      assert x == y;
    }
  }

  lemma {:induction false} EqualTexts(a: seq<string>)
    ensures Length(a, a) == |a|
    decreases |a|
  {
    if a != [] {
      EqualTexts(a[..|a| - 1]);
    }
  }

  lemma EqualEndings(lines: seq<Line>, paired: Pairs)
    requires PairsUp(paired, Texts(lines), Texts(lines), 0, 0) && |paired| == |lines|
    ensures EndingChangeOf(lines, lines, paired) == None
  {
    forall k | 0 <= k < |paired|
      ensures paired[k] == (k, k)
    {
      WholePairing(paired, Texts(lines), Texts(lines), k);
    }
  }

  // ----- The whole change

  predicate TooLong(before: string, after: string) {
    || ByteLength(before) > MAX_DIFF_BYTES || ByteLength(after) > MAX_DIFF_BYTES
    || |Lines(before)| > MAX_DIFF_LINES || |Lines(after)| > MAX_DIFF_LINES
  }

  /** A change with nothing to show. */
  predicate Silent(c: Change) {
    c.added == 0 && c.removed == 0 && c.endingChange == None && c.finalNewline == None
  }

  /** No insert/delete script from one line list to the other is cheaper. */
  ghost predicate Cheapest(cost: nat, before: seq<string>, after: seq<string>) {
    forall script: seq<Edit> :: Fits(script, before) && Applied(script, before) == after ==> cost <= Cost(script)
  }

  method Between(before: Option<string>, after: string) returns (r: Option<Change>)
    ensures var previous := if before.Some? then before.value else "";
            var old_, new_ := Texts(Lines(previous)), Texts(Lines(after));
            && (r.None? <==> TooLong(previous, after) || TooManyCells(old_, new_))
            && (r.Some? ==>
                  && r.value.added == |new_| - Length(old_, new_)
                  && r.value.removed == |old_| - Length(old_, new_)
                  && Cheapest(r.value.added + r.value.removed, old_, new_)
                  && Patch(old_, r.value.hunks, 0) == Some(new_)
                  && r.value.created == before.None?
                  && r.value.finalNewline ==
                     if before.Some? && EndsWithNewline(previous) != EndsWithNewline(after)
                     then Some(EndsWithNewline(after)) else None)
    ensures r.Some? ==> exists entries: seq<Entry>, ranges: Ranges ::
              && Accounts(entries, Lines(if before.Some? then before.value else ""), Lines(after),
                          |Lines(if before.Some? then before.value else "")|, |Lines(after)|)
              && Separated(ranges, |entries|) && CoversChanges(ranges, entries, |entries|)
              && r.value.hunks == Slices(entries, ranges)
    ensures r.Some? && before.Some? ==> exists paired: Pairs ::
              && PairsUp(paired, Texts(Lines(before.value)), Texts(Lines(after)), 0, 0)
              && |paired| == Length(Texts(Lines(before.value)), Texts(Lines(after)))
              && EndingReport(before.value, after, paired, r.value.endingChange)
    ensures before.None? && r.Some? ==> r.value.endingChange == None
    ensures r.Some? && before.Some? ==>
              (Silent(r.value) <==> before.value == after)
  {
    hide PairsUp, Length, Patch, EndingChangeOf, CoversChanges, Separated, Lines, Numbered, Count, Fits, Applied, Cost,
         OldSide, NewSide, TooLong, TooManyCells, EndsWithNewline, EndingReport;
    var previous := if before.Some? then before.value else "";
    var old_, new_ := Lines(previous), Lines(after);
    if TooLong(previous, after) {
      return None;
    }
    var paired := Paired(Texts(old_), Texts(new_));
    if paired.None? {
      return None;
    }
    var entries := Script(old_, new_, paired.value);
    var ranges := HunkRanges(entries);
    assert old_[..|old_|] == old_ && new_[..|new_|] == new_;
    SidesCount(entries);
    PatchRest(entries, old_, new_, ranges, 0, 0);
    assert Slices(entries, ranges)[0..] == Slices(entries, ranges) && entries[0..] == entries;
    NoSides();
    assert entries[..0] == [] && Texts(old_)[0..] == Texts(old_);
    hide Slices;
    var added, removed := Count(entries, Added), Count(entries, Removed);
    forall script: seq<Edit> | Fits(script, Texts(old_)) && Applied(script, Texts(old_)) == Texts(new_)
      ensures added + removed <= Cost(script)
    {
      NoScriptIsCheaper(script, Texts(old_));
    }
    var finalNewline :=
      if before.Some? && EndsWithNewline(previous) != EndsWithNewline(after)
      then Some(EndsWithNewline(after)) else None;
    var endingChange := if before.Some? then EndingChangeOf(old_, new_, paired.value) else None;
    SilentExactlyWhenEqual(previous, after, paired.value);
    EndingChangeMeans(previous, after, paired.value);
    r := Some(Change(added, removed, before.None?, Slices(entries, ranges), endingChange, finalNewline));
  }
}
