/**
  Masking secrets in byte streams: the whole-text mask, the part of a buffer
  that is already certain, pages of a masked file and a cursor moved along.
 */
module Redact {
  import opened Wrappers
  import opened ByteText

  const REDACTED: Bytes := ['[' as int, 'r' as int, 'e' as int, 'd' as int, 'a' as int,
                            'c' as int, 't' as int, 'e' as int, 'd' as int, ']' as int]

  /** Patterns in the order they are tried; none is empty. */
  ghost predicate Usable(patterns: seq<Bytes>) {
    forall k | 0 <= k < |patterns| :: patterns[k] != []
  }

  /** The length of the first pattern that starts `s`, or zero. */
  function MatchLength(patterns: seq<Bytes>, s: Bytes): (n: nat)
    ensures n <= |s|
  {
    if patterns == [] then 0
    else if patterns[0] <= s then |patterns[0]|
    else MatchLength(patterns[1..], s)
  }

  function Step(patterns: seq<Bytes>, s: Bytes): (n: nat)
    requires s != []
    ensures 1 <= n <= |s|
  {
    var n := MatchLength(patterns, s);
    if n > 0 then n else 1
  }

  function Shown(patterns: seq<Bytes>, s: Bytes): Bytes
    requires s != []
  {
    if MatchLength(patterns, s) > 0 then REDACTED else [s[0]]
  }

  /** The masked form of a whole text. */
  function Mask(patterns: seq<Bytes>, s: Bytes): Bytes
    decreases |s|
  {
    if s == [] then [] else Shown(patterns, s) + Mask(patterns, s[Step(patterns, s)..])
  }

  /** The first pattern in order that starts the text, if any does. */
  lemma {:induction false} FirstPatternMatches(patterns: seq<Bytes>, s: Bytes)
    requires Usable(patterns)
    ensures MatchLength(patterns, s) == 0 <==> forall k | 0 <= k < |patterns| :: !(patterns[k] <= s)
    ensures MatchLength(patterns, s) > 0 ==>
              exists k | 0 <= k < |patterns| ::
                && patterns[k] <= s && MatchLength(patterns, s) == |patterns[k]|
                && forall l | 0 <= l < k :: !(patterns[l] <= s)
  {
    if patterns != [] {
      FirstPatternMatches(patterns[1..], s);
      assert forall k | 0 < k < |patterns| :: patterns[k] == patterns[1..][k - 1];
      if patterns[0] <= s {
        assert MatchLength(patterns, s) == |patterns[0]|;
      } else if MatchLength(patterns, s) > 0 {
        var k :| 0 <= k < |patterns[1..]| && patterns[1..][k] <= s && MatchLength(patterns, s) == |patterns[1..][k]|
          && forall l | 0 <= l < k :: !(patterns[1..][l] <= s);
        assert patterns[k + 1] <= s;
      }
    }
  }

  // ----- What is certain before more bytes arrive

  /** More bytes could still complete a pattern that starts here. */
  predicate MayBegin(patterns: seq<Bytes>, s: Bytes) {
    exists k | 0 <= k < |patterns| :: |patterns[k]| > |s| && s <= patterns[k]
  }

  /** The first position from `at` on whose suffix could still begin a pattern. */
  function FirstOpen(patterns: seq<Bytes>, bytes: Bytes, at: nat): (open: nat)
    requires at <= |bytes|
    ensures at <= open <= |bytes|
    ensures open < |bytes| ==> MayBegin(patterns, bytes[open..])
    ensures forall q | at <= q < open :: !MayBegin(patterns, bytes[q..])
    decreases |bytes| - at
  {
    if at == |bytes| || MayBegin(patterns, bytes[at..]) then at else FirstOpen(patterns, bytes, at + 1)
  }

  /** Everything before the longest suffix that could still begin a pattern. */
  function Safe(patterns: seq<Bytes>, bytes: Bytes): (safe: nat)
    ensures safe <= |bytes|
  {
    FirstOpen(patterns, bytes, 0)
  }

  /** Masking from `at` until `safe` is reached or passed. */
  function Scan(patterns: seq<Bytes>, bytes: Bytes, at: nat, safe: nat): (r: (nat, Bytes))
    requires at <= |bytes| && safe <= |bytes|
    ensures at <= r.0 <= |bytes| && safe <= r.0
    decreases |bytes| - at
  {
    if at >= safe then (at, [])
    else
      var s := bytes[at..];
      var (consumed, more) := Scan(patterns, bytes, at + Step(patterns, s), safe);
      (consumed, Shown(patterns, s) + more)
  }

  lemma PrefixIsSettled(p: Bytes, s: Bytes, more: Bytes)
    requires !(|p| > |s| && s <= p)
    ensures p <= s <==> p <= s + more
  {
    if |p| <= |s| {
      assert (s + more)[..|p|] == s[..|p|];
    } else {
      LongPrefix(p, s, more);
    }
  }

  lemma LongPrefix(p: Bytes, s: Bytes, more: Bytes)
    ensures p <= s + more && |p| > |s| ==> s <= p
  {
    if p <= s + more && |p| > |s| {
      forall k | 0 <= k < |s| ensures p[k] == s[k] {
        assert p[k] == (s + more)[k];
      }
    }
  }

  lemma {:induction false} MatchIsSettled(patterns: seq<Bytes>, s: Bytes, more: Bytes)
    requires !MayBegin(patterns, s)
    ensures MatchLength(patterns, s + more) == MatchLength(patterns, s)
  {
    if patterns != [] {
      PrefixIsSettled(patterns[0], s, more);
      forall k | 0 <= k < |patterns[1..]|
        ensures patterns[1..][k] == patterns[k + 1]
      {
      }
      MatchIsSettled(patterns[1..], s, more);
    }
  }

  lemma MaskStep(patterns: seq<Bytes>, s: Bytes)
    requires s != []
    ensures Mask(patterns, s) == Shown(patterns, s) + Mask(patterns, s[Step(patterns, s)..])
  {
    hide MatchLength, Step, Shown;
  }

  /** A place that can no longer change is masked as it is now. */
  lemma SettledStep(patterns: seq<Bytes>, s: Bytes, more: Bytes)
    requires s != [] && MatchLength(patterns, s + more) == MatchLength(patterns, s)
    ensures Mask(patterns, s + more) == Shown(patterns, s) + Mask(patterns, s[Step(patterns, s)..] + more)
  {
    hide MatchLength, Mask;
    MaskStep(patterns, s + more);
    assert (s + more)[Step(patterns, s)..] == s[Step(patterns, s)..] + more;
  }

  /** Whatever arrives later, what was scanned is masked the same way. */
  lemma {:induction false} ScannedIsSettled(patterns: seq<Bytes>, bytes: Bytes, at: nat, more: Bytes)
    requires at <= |bytes|
    ensures var (consumed, shown) := Scan(patterns, bytes, at, Safe(patterns, bytes));
            Mask(patterns, bytes[at..] + more) == shown + Mask(patterns, bytes[consumed..] + more)
    decreases |bytes| - at
  {
    hide MayBegin, MatchLength, Mask, Shown, Step, FirstOpen;
    var safe := Safe(patterns, bytes);
    if at < safe {
      var s := bytes[at..];
      var n, shown := Step(patterns, s), Shown(patterns, s);
      MatchIsSettled(patterns, s, more);
      SettledStep(patterns, s, more);
      ScannedIsSettled(patterns, bytes, at + n, more);
      var (consumed, later) := Scan(patterns, bytes, at + n, safe);
      var rest := Mask(patterns, bytes[consumed..] + more);
      assert s[n..] == bytes[at + n..];
      assert shown + (later + rest) == (shown + later) + rest;
    } else {
      assert [] + Mask(patterns, bytes[at..] + more) == Mask(patterns, bytes[at..] + more);
    }
  }

  lemma {:induction false} ScanToTheEnd(patterns: seq<Bytes>, bytes: Bytes, at: nat)
    requires at <= |bytes|
    ensures Scan(patterns, bytes, at, |bytes|) == (|bytes|, Mask(patterns, bytes[at..]))
    decreases |bytes| - at
  {
    hide MatchLength;
    if at < |bytes| {
      var s := bytes[at..];
      ScanToTheEnd(patterns, bytes, at + Step(patterns, s));
      assert s[Step(patterns, s)..] == bytes[at + Step(patterns, s)..];
    }
  }

  lemma LongIsNotOpen(patterns: seq<Bytes>, s: Bytes, longest: nat)
    requires forall k | 0 <= k < |patterns| :: |patterns[k]| <= longest
    requires |s| >= longest
    ensures !MayBegin(patterns, s)
  {
  }

  /** The scan from `at` on, after `done`. */
  ghost function ScanOn(patterns: seq<Bytes>, bytes: Bytes, at: nat, safe: nat, done: Bytes): (nat, Bytes)
    requires at <= |bytes| && safe <= |bytes|
  {
    var (consumed, shown) := Scan(patterns, bytes, at, safe);
    (consumed, done + shown)
  }

  lemma ScanStep(patterns: seq<Bytes>, bytes: Bytes, at: nat, safe: nat, done: Bytes)
    requires at <= |bytes| && safe <= |bytes|
    ensures ScanOn(patterns, bytes, at, safe, done)
         == if at >= safe then (at, done)
            else var s := bytes[at..]; ScanOn(patterns, bytes, at + Step(patterns, s), safe, done + Shown(patterns, s))
  {
    hide MatchLength, Step, Shown;
    if at < safe {
      var s := bytes[at..];
      var rest := Scan(patterns, bytes, at + Step(patterns, s), safe).1;
      assert done + (Shown(patterns, s) + rest) == (done + Shown(patterns, s)) + rest;
    } else {
      assert done + [] == done;
    }
  }

  method BytePrefix(patterns: seq<Bytes>, bytes: Bytes, finish: bool) returns (consumed: nat, result: Bytes)
    requires Usable(patterns)
    ensures (consumed, result) == Scan(patterns, bytes, 0, if finish then |bytes| else Safe(patterns, bytes))
    ensures finish ==> consumed == |bytes| && result == Mask(patterns, bytes)
    ensures !finish ==> forall more: Bytes ::
              Mask(patterns, bytes + more) == result + Mask(patterns, bytes[consumed..] + more)
  {
    hide MayBegin, MatchLength, Step, Shown, Mask, Safe, Scan;
    var hold := 0;
    if !finish {
      hold := HeldSuffix(patterns, bytes);
    }
    var safe := |bytes| - hold;
    consumed, result := 0, [];
    ghost var whole := Scan(patterns, bytes, 0, safe);
    assert [] + whole.1 == whole.1;
    while consumed < safe
      invariant consumed <= |bytes|
      invariant ScanOn(patterns, bytes, consumed, safe, result) == whole
    {
      var s := bytes[consumed..];
      ScanStep(patterns, bytes, consumed, safe, result);
      result := result + Shown(patterns, s);
      consumed := consumed + Step(patterns, s);
    }
    ScanStep(patterns, bytes, consumed, safe, result);
    ScanToTheEnd(patterns, bytes, 0);
    assert bytes[0..] == bytes;
    forall more: Bytes | !finish
      ensures Mask(patterns, bytes + more) == result + Mask(patterns, bytes[consumed..] + more)
    {
      ScannedIsSettled(patterns, bytes, 0, more);
    }
  }

  /** The trailing fragment that could still start a secret; it is shorter than
      the longest pattern. */
  method HeldSuffix(patterns: seq<Bytes>, bytes: Bytes) returns (hold: nat)
    ensures hold <= |bytes| && |bytes| - hold == Safe(patterns, bytes)
  {
    hide MayBegin;
    var longest: nat := 0;
    for k := 0 to |patterns|
      invariant forall l | 0 <= l < k :: |patterns[l]| <= longest
    {
      if |patterns[k]| > longest {
        longest := |patterns[k]|;
      }
    }
    hold := if longest == 0 then 0 else longest - 1;
    if |bytes| < hold {
      hold := |bytes|;
    }
    forall q | 0 <= q < |bytes| - hold
      ensures !MayBegin(patterns, bytes[q..])
    {
      LongIsNotOpen(patterns, bytes[q..], longest);
    }
    while hold > 0 && !MayBegin(patterns, bytes[|bytes| - hold..])
      invariant hold <= |bytes| && forall q | 0 <= q < |bytes| - hold :: !MayBegin(patterns, bytes[q..])
    {
      hold := hold - 1;
    }
  }

  // ----- Chunks

  /** What a spool holds back and what it writes when a chunk arrives. */
  function Spooled(patterns: seq<Bytes>, pending: Bytes, chunk: Bytes): (Bytes, Bytes) {
    var bytes := pending + chunk;
    var (consumed, shown) := Scan(patterns, bytes, 0, Safe(patterns, bytes));
    (bytes[consumed..], shown)
  }

  /** All a spool writes for these chunks, its last write included. */
  function SpooledAll(patterns: seq<Bytes>, pending: Bytes, chunks: seq<Bytes>): Bytes
    decreases |chunks|
  {
    if chunks == [] then Mask(patterns, pending)
    else
      var (held, shown) := Spooled(patterns, pending, chunks[0]);
      shown + SpooledAll(patterns, held, chunks[1..])
  }

  /** However a stream is cut, the file holds the mask of the whole stream. */
  lemma {:induction false} ChunksDoNotMatter(patterns: seq<Bytes>, pending: Bytes, chunks: seq<Bytes>)
    ensures SpooledAll(patterns, pending, chunks) == Mask(patterns, pending + Concat(chunks))
    decreases |chunks|
  {
    hide Scan, Safe, Mask;
    if chunks == [] {
      assert pending + [] == pending;
    } else {
      var bytes := pending + chunks[0];
      var (held, shown) := Spooled(patterns, pending, chunks[0]);
      ScannedIsSettled(patterns, bytes, 0, Concat(chunks[1..]));
      ChunksDoNotMatter(patterns, held, chunks[1..]);
      assert bytes[0..] == bytes;
      assert pending + Concat(chunks) == bytes + Concat(chunks[1..]);
    }
  }

  class Spool {
    const patterns: seq<Bytes>
    var pending: Bytes
    var file: Bytes

    constructor (patterns: seq<Bytes>)
      ensures this.patterns == patterns && pending == [] && file == []
    {
      this.patterns, pending, file := patterns, [], [];
    }

    method Write(bytes: Bytes)
      requires Usable(patterns)
      modifies this
      ensures var (held, shown) := Spooled(patterns, old(pending), bytes);
              pending == held && file == old(file) + shown
    {
      pending := pending + bytes;
      var consumed, redacted := BytePrefix(patterns, pending, false);
      file := file + redacted;
      pending := pending[consumed..];
    }

    method Finish()
      requires Usable(patterns)
      modifies this
      ensures pending == [] && file == old(file) + Mask(patterns, old(pending))
    {
      var _, redacted := BytePrefix(patterns, pending, true);
      file := file + redacted;
      pending := [];
    }
  }

  /** A whole stream through a spool. */
  method SpoolAll(patterns: seq<Bytes>, chunks: seq<Bytes>) returns (file: Bytes)
    requires Usable(patterns)
    ensures file == Mask(patterns, Concat(chunks))
  {
    hide Mask, Spooled;
    var spool := new Spool(patterns);
    var k := 0;
    assert chunks[0..] == chunks;
    while k < |chunks|
      invariant 0 <= k <= |chunks| && spool.patterns == patterns
      invariant SpooledAll(patterns, [], chunks) == spool.file + SpooledAll(patterns, spool.pending, chunks[k..])
    {
      assert chunks[k..][0] == chunks[k] && chunks[k..][1..] == chunks[k + 1..];
      spool.Write(chunks[k]);
      k := k + 1;
    }
    spool.Finish();
    file := spool.file;
    ChunksDoNotMatter(patterns, [], chunks);
    assert [] + Concat(chunks) == Concat(chunks);
  }

  // ----- How long a byte is held

  /** Unless a masked secret reaches into the held suffix, everything held
      could still begin a secret. */
  lemma HeldMayBegin(patterns: seq<Bytes>, bytes: Bytes)
    requires Scan(patterns, bytes, 0, Safe(patterns, bytes)).0 == Safe(patterns, bytes)
    ensures var held := bytes[Scan(patterns, bytes, 0, Safe(patterns, bytes)).0..];
            held == [] || MayBegin(patterns, held)
  {
  }

  /** The first pattern that is there, or may still be completed, is one that
      may still be completed. */
  predicate Undecided(patterns: seq<Bytes>, s: Bytes) {
    patterns != [] && !(patterns[0] <= s)
    && ((|patterns[0]| > |s| && s <= patterns[0]) || Undecided(patterns[1..], s))
  }

  /** The byte at `j` is no part of any match: the mask shows it as itself. */
  predicate ShownAt(patterns: seq<Bytes>, s: Bytes, j: nat)
    requires j < |s|
    decreases |s|
  {
    if MatchLength(patterns, s) == 0 then j == 0 || ShownAt(patterns, s[1..], j - 1)
    else
      var n := MatchLength(patterns, s);
      j >= n && ShownAt(patterns, s[n..], j - n)
  }

  /** The mask of every continuation shows this byte as itself. */
  ghost predicate Settled(patterns: seq<Bytes>, s: Bytes, j: nat)
    requires j < |s|
  {
    forall more: Bytes :: ShownAt(patterns, s + more, j)
  }

  /** Going on over the rest from match to match, while each place is decided,
      meets a byte that begins no pattern. */
  predicate MeetsPlainByte(patterns: seq<Bytes>, s: Bytes)
    decreases |s|
  {
    s != [] && !Undecided(patterns, s) &&
    (MatchLength(patterns, s) == 0 || MeetsPlainByte(patterns, s[MatchLength(patterns, s)..]))
  }

  /** At a decided place every continuation matches what is there now. */
  lemma {:induction false} DecidedMatch(patterns: seq<Bytes>, s: Bytes, more: Bytes)
    requires !Undecided(patterns, s)
    ensures MatchLength(patterns, s + more) == MatchLength(patterns, s)
  {
    if patterns != [] {
      PrefixIsSettled(patterns[0], s, more);
      if !(patterns[0] <= s) {
        DecidedMatch(patterns[1..], s, more);
      }
    }
  }

  /** At an undecided place some continuation masks everything there is. */
  lemma {:induction false} UndecidedMatch(patterns: seq<Bytes>, s: Bytes) returns (more: Bytes)
    requires Undecided(patterns, s)
    ensures MatchLength(patterns, s + more) > |s|
  {
    if |patterns[0]| > |s| && s <= patterns[0] {
      more := patterns[0][|s|..];
      assert s + more == patterns[0];
    } else {
      more := UndecidedMatch(patterns[1..], s);
      PrefixIsSettled(patterns[0], s, more);
    }
  }

  /** Some byte of a rest is settled exactly when going on over it meets a plain
      byte. */
  lemma {:induction false} SettledMeans(patterns: seq<Bytes>, s: Bytes)
    ensures (exists j: nat :: j < |s| && Settled(patterns, s, j)) <==> MeetsPlainByte(patterns, s)
    decreases |s|
  {
    hide Undecided, MatchLength;
    if MeetsPlainByte(patterns, s) {
      var j := PlainByteIsSettled(patterns, s);
    }
    if j: nat :| j < |s| && Settled(patterns, s, j) {
      SettledMeetsPlainByte(patterns, s, j);
    }
  }

  lemma {:induction false} PlainByteIsSettled(patterns: seq<Bytes>, s: Bytes) returns (j: nat)
    requires MeetsPlainByte(patterns, s)
    ensures j < |s| && Settled(patterns, s, j)
    decreases |s|
  {
    hide Undecided, MatchLength;
    var n := MatchLength(patterns, s);
    var k: nat := 0;
    if n > 0 {
      k := PlainByteIsSettled(patterns, s[n..]);
    }
    j := n + k;
    forall more: Bytes
      ensures ShownAt(patterns, s + more, j)
    {
      DecidedMatch(patterns, s, more);
      if n > 0 {
        assert (s + more)[n..] == s[n..] + more;
        assert ShownAt(patterns, s[n..] + more, k);
      }
    }
  }

  lemma UndecidedIsNotSettled(patterns: seq<Bytes>, s: Bytes, j: nat)
    requires Undecided(patterns, s) && j < |s|
    ensures !Settled(patterns, s, j)
  {
    hide MatchLength, Undecided;
    var more := UndecidedMatch(patterns, s);
    assert !ShownAt(patterns, s + more, j);
  }

  lemma {:induction false} SettledMeetsPlainByte(patterns: seq<Bytes>, s: Bytes, j: nat)
    requires j < |s| && Settled(patterns, s, j)
    ensures MeetsPlainByte(patterns, s)
    decreases |s|
  {
    hide Undecided, MatchLength;
    if Undecided(patterns, s) {
      UndecidedIsNotSettled(patterns, s, j);
    }
    var n := MatchLength(patterns, s);
    if n > 0 && !Undecided(patterns, s) {
      assert s + [] == s;
      assert ShownAt(patterns, s + [], j);
      forall more: Bytes
        ensures ShownAt(patterns, s[n..] + more, j - n)
      {
        DecidedMatch(patterns, s, more);
        assert (s + more)[n..] == s[n..] + more;
        assert ShownAt(patterns, s + more, j);
      }
      SettledMeetsPlainByte(patterns, s[n..], j - n);
    }
  }

  /** A spool keeps back a byte that can no longer be masked exactly when going
      on over what it keeps meets a plain byte. */
  lemma SettledByteIsHeldExactly(patterns: seq<Bytes>, pending: Bytes, chunk: Bytes)
    ensures var (held, shown) := Spooled(patterns, pending, chunk);
            && (forall more: Bytes :: Mask(patterns, pending + chunk + more) == shown + Mask(patterns, held + more))
            && ((exists j: nat :: j < |held| && Settled(patterns, held, j)) <==> MeetsPlainByte(patterns, held))
  {
    hide Mask, Scan, Safe, MeetsPlainByte, Settled;
    var bytes := pending + chunk;
    var held := Spooled(patterns, pending, chunk).0;
    SettledMeans(patterns, held);
    assert bytes[0..] == bytes;
    forall more: Bytes
      ensures Mask(patterns, bytes + more) == Spooled(patterns, pending, chunk).1 + Mask(patterns, held + more)
    {
      ScannedIsSettled(patterns, bytes, 0, more);
    }
  }

  /** While no pattern is a proper beginning of a later one, this takes a match
      that ran across the safe end. */
  lemma HeldAtTheSafeEnd(patterns: seq<Bytes>, bytes: Bytes)
    requires Scan(patterns, bytes, 0, Safe(patterns, bytes)).0 == Safe(patterns, bytes)
    requires forall k, l | 0 <= k < l < |patterns| :: patterns[k] <= patterns[l] ==> patterns[k] == patterns[l]
    ensures !MeetsPlainByte(patterns, bytes[Safe(patterns, bytes)..])
  {
    hide Scan;
    var held := bytes[Safe(patterns, bytes)..];
    if held != [] {
      OpenIsUndecided(patterns, held);
    }
  }

  lemma PrefixChain(a: Bytes, b: Bytes, c: Bytes)
    ensures a <= b && b <= c ==> a <= c
  {
  }

  lemma {:induction false} OpenIsUndecided(patterns: seq<Bytes>, s: Bytes)
    requires MayBegin(patterns, s)
    requires forall k, l | 0 <= k < l < |patterns| :: patterns[k] <= patterns[l] ==> patterns[k] == patterns[l]
    ensures Undecided(patterns, s)
  {
    var k :| 0 <= k < |patterns| && |patterns[k]| > |s| && s <= patterns[k];
    PrefixChain(patterns[0], s, patterns[k]);
    if k > 0 {
      assert patterns[1..][k - 1] == patterns[k];
      assert forall l | 0 < l < |patterns| :: patterns[1..][l - 1] == patterns[l];
      OpenIsUndecided(patterns[1..], s);
    }
  }

  // ----- What a mask shows and hides

  /** A byte shown as itself stands in the mask between the mask of what was
      scanned before it and the mask of what follows. */
  lemma {:induction false} ShownMeans(patterns: seq<Bytes>, s: Bytes, j: nat)
    requires j < |s|
    ensures ShownAt(patterns, s, j) <==> Before(patterns, s, j).0 == j && MatchLength(patterns, s[j..]) == 0
    ensures ShownAt(patterns, s, j) ==>
              Mask(patterns, s) == Before(patterns, s, j).1 + [s[j]] + Mask(patterns, s[j + 1..])
    decreases |s|
  {
    hide MatchLength, Mask, Shown, Before, Step, ShownAt;
    var n := Step(patterns, s);
    if j == 0 {
      assert s[0..] == s;
      ShownFirst(patterns, s);
    } else if j < n {
      InsideMatch(patterns, s, j);
    } else {
      var rest := s[n..];
      ShownLater(patterns, s, j);
      BeforeLater(patterns, s, j);
      ShownMeans(patterns, rest, j - n);
      MaskStep(patterns, s);
      assert rest[j - n..] == s[j..] && rest[j - n + 1..] == s[j + 1..];
      Regroup(Shown(patterns, s), Before(patterns, rest, j - n).1, [s[j]], Mask(patterns, s[j + 1..]));
    }
  }

  lemma InsideMatch(patterns: seq<Bytes>, s: Bytes, j: nat)
    requires 0 < j < |s| && j < Step(patterns, s)
    ensures !ShownAt(patterns, s, j) && Before(patterns, s, j).0 > j
  {
    hide MatchLength, Shown;
  }

  /** Behind the first match or byte, a scan goes on as in the rest. */
  lemma BeforeLater(patterns: seq<Bytes>, s: Bytes, j: nat)
    requires s != [] && Step(patterns, s) <= j <= |s|
    ensures var n := Step(patterns, s);
            var later := Before(patterns, s[n..], j - n);
            Before(patterns, s, j) == (n + later.0, Shown(patterns, s) + later.1)
  {
    hide MatchLength, Shown, Step;
    assert Shown(patterns, s) + [] == Shown(patterns, s);
  }

  lemma Regroup(a: Bytes, b: Bytes, c: Bytes, d: Bytes)
    ensures a + (b + c + d) == (a + b) + c + d
  {
  }

  lemma ShownFirst(patterns: seq<Bytes>, s: Bytes)
    requires s != []
    ensures ShownAt(patterns, s, 0) <==> MatchLength(patterns, s) == 0
    ensures Before(patterns, s, 0) == (0, [])
    ensures ShownAt(patterns, s, 0) ==> Mask(patterns, s) == [] + [s[0]] + Mask(patterns, s[1..])
  {
    hide MatchLength;
    assert [] + [s[0]] + Mask(patterns, s[1..]) == [s[0]] + Mask(patterns, s[1..]);
  }

  /** The first place at or after `j` that the scan reaches, and what it shows
      before it. */
  function Before(patterns: seq<Bytes>, s: Bytes, j: nat): (r: (nat, Bytes))
    requires j <= |s|
    ensures j <= r.0 <= |s|
    decreases |s|
  {
    if j == 0 then (0, [])
    else
      var n := Step(patterns, s);
      if n >= j then (n, Shown(patterns, s))
      else
        var (at, shown) := Before(patterns, s[n..], j - n);
        (n + at, Shown(patterns, s) + shown)
  }

  /** Every occurrence of a pattern has at least its first byte masked. */
  lemma {:induction false} FirstByteIsMasked(patterns: seq<Bytes>, s: Bytes, i: nat)
    requires i < |s| && MatchLength(patterns, s[i..]) > 0
    ensures !ShownAt(patterns, s, i)
    decreases |s|
  {
    hide MatchLength;
    assert s[0..] == s;
    var n := Step(patterns, s);
    if i >= n {
      assert s[n..][i - n..] == s[i..];
      FirstByteIsMasked(patterns, s[n..], i - n);
    }
  }

  /** Behind the match that hides a byte the scan starts afresh. */
  lemma {:induction false} Resumes(patterns: seq<Bytes>, s: Bytes, i: nat, j: nat)
    requires i <= j < |s| && !ShownAt(patterns, s, i)
    ensures var to := Before(patterns, s, i + 1).0;
            ShownAt(patterns, s, j) <==> j >= to && ShownAt(patterns, s[to..], j - to)
    decreases |s|
  {
    hide MatchLength, Shown, Before, Step, ShownAt;
    var n := Step(patterns, s);
    if i < n {
      FirstMatchHides(patterns, s, i, j);
    } else {
      var rest := s[n..];
      ShownLater(patterns, s, i);
      ShownLater(patterns, s, j);
      BeforeLater(patterns, s, i + 1);
      Resumes(patterns, rest, i - n, j - n);
      var to := Before(patterns, rest, i - n + 1).0;
      assert rest[to..] == s[n + to..];
    }
  }

  lemma FirstMatchHides(patterns: seq<Bytes>, s: Bytes, i: nat, j: nat)
    requires i <= j < |s| && i < Step(patterns, s) && !ShownAt(patterns, s, i)
    ensures var n := Step(patterns, s);
            && Before(patterns, s, i + 1).0 == n
            && (ShownAt(patterns, s, j) <==> j >= n && ShownAt(patterns, s[n..], j - n))
  {
    hide MatchLength, Shown;
  }

  lemma ShownLater(patterns: seq<Bytes>, s: Bytes, j: nat)
    requires j < |s| && Step(patterns, s) <= j
    ensures ShownAt(patterns, s, j) == ShownAt(patterns, s[Step(patterns, s)..], j - Step(patterns, s))
  {
    hide MatchLength;
  }

  /** A secret is never shown whole, and bytes of it are shown only where an
      earlier match, or an earlier pattern at the same place, ended inside it. */
  lemma OccurrenceIsHidden(patterns: seq<Bytes>, s: Bytes, i: nat, k: nat)
    requires Usable(patterns) && k < |patterns| && i < |s| && patterns[k] <= s[i..]
    ensures !ShownAt(patterns, s, i)
    ensures var to := Before(patterns, s, i + 1).0;
            && (forall j: nat | i <= j < i + |patterns[k]| ::
                  ShownAt(patterns, s, j) <==> j >= to && ShownAt(patterns, s[to..], j - to))
            && (to < i + |patterns[k]| ==>
                  Before(patterns, s, i).0 > i || exists l: nat | l < k :: patterns[l] <= s[i..])
  {
    hide MatchLength, ShownAt, Before;
    FirstPatternMatches(patterns, s[i..]);
    FirstByteIsMasked(patterns, s, i);
    forall j: nat | i <= j < i + |patterns[k]|
      ensures var to := Before(patterns, s, i + 1).0;
              ShownAt(patterns, s, j) <==> j >= to && ShownAt(patterns, s[to..], j - to)
    {
      Resumes(patterns, s, i, j);
    }
    if Before(patterns, s, i).0 == i {
      MatchAtReached(patterns, s, i);
      var l: nat :| l < |patterns| && patterns[l] <= s[i..] && MatchLength(patterns, s[i..]) == |patterns[l]|
        && forall m | 0 <= m < l :: !(patterns[m] <= s[i..]);
      assert l <= k;
    }
  }

  lemma {:induction false} MatchAtReached(patterns: seq<Bytes>, s: Bytes, i: nat)
    requires i < |s| && Before(patterns, s, i).0 == i && MatchLength(patterns, s[i..]) > 0
    ensures Before(patterns, s, i + 1).0 == i + MatchLength(patterns, s[i..])
    decreases |s|
  {
    hide MatchLength, Shown;
    assert s[0..] == s;
    if i > 0 {
      var n := Step(patterns, s);
      assert s[n..][i - n..] == s[i..];
      MatchAtReached(patterns, s[n..], i - n);
    }
  }

  // ----- Pages

  function Window(patterns: seq<Bytes>, bytes: Bytes, at: nat, start: nat, end: nat): Bytes
    requires at <= |bytes|
    decreases |bytes| - at
  {
    if at == |bytes| then []
    else
      var s := bytes[at..];
      (if start <= at < end then Shown(patterns, s) else [])
      + Window(patterns, bytes, at + Step(patterns, s), start, end)
  }

  // ----- Which page shows what

  /** A pattern starts at this position. */
  predicate MatchedAt(patterns: seq<Bytes>, bytes: Bytes, i: nat)
    requires i <= |bytes|
  {
    exists k | 0 <= k < |patterns| :: patterns[k] <= bytes[i..]
  }

  /** From `i` to `j` stands the first pattern that starts there, or a byte at
      which none does. */
  ghost predicate Piece(patterns: seq<Bytes>, bytes: Bytes, i: nat, j: nat)
    requires i < j <= |bytes|
  {
    if MatchedAt(patterns, bytes, i) then
      exists k | 0 <= k < |patterns| ::
        && patterns[k] == bytes[i..j]
        && forall l | 0 <= l < k :: !(patterns[l] <= bytes[i..])
    else j == i + 1
  }

  /** The ends of the pieces the bytes from `from` on are cut into. */
  ghost predicate CutAt(patterns: seq<Bytes>, bytes: Bytes, from: nat, ends: seq<nat>)
    requires from <= |bytes|
    decreases |ends|
  {
    if ends == [] then from == |bytes|
    else
      && from < ends[0] <= |bytes| && Piece(patterns, bytes, from, ends[0])
      && CutAt(patterns, bytes, ends[0], ends[1..])
  }

  /** The pieces that begin in the window: the mark for a pattern, the byte
      itself otherwise. */
  ghost function PagePieces(patterns: seq<Bytes>, bytes: Bytes, from: nat, ends: seq<nat>, start: nat, end: nat): Bytes
    requires from <= |bytes| && CutAt(patterns, bytes, from, ends)
    decreases |ends|
  {
    if ends == [] then []
    else
      (if !(start <= from < end) then []
       else if MatchedAt(patterns, bytes, from) then REDACTED else [bytes[from]])
      + PagePieces(patterns, bytes, ends[0], ends[1..], start, end)
  }

  lemma StepIsPiece(patterns: seq<Bytes>, bytes: Bytes, i: nat)
    requires Usable(patterns) && i < |bytes|
    ensures Piece(patterns, bytes, i, i + Step(patterns, bytes[i..]))
    ensures MatchedAt(patterns, bytes, i) <==> MatchLength(patterns, bytes[i..]) > 0
  {
    hide MatchLength;
    var s := bytes[i..];
    FirstPatternMatches(patterns, s);
    if MatchLength(patterns, s) > 0 {
      var k :| 0 <= k < |patterns| && patterns[k] <= s && MatchLength(patterns, s) == |patterns[k]|
        && forall l | 0 <= l < k :: !(patterns[l] <= s);
      assert patterns[k] == s[..|patterns[k]|] == bytes[i..i + |patterns[k]|];
    }
  }

  /** A page shows the pieces that begin on it, and of a pattern that began
      before it nothing. */
  lemma {:induction false} WindowShows(patterns: seq<Bytes>, bytes: Bytes, from: nat, start: nat, end: nat)
    returns (ends: seq<nat>)
    requires Usable(patterns) && from <= |bytes|
    ensures CutAt(patterns, bytes, from, ends)
    ensures Window(patterns, bytes, from, start, end) == PagePieces(patterns, bytes, from, ends, start, end)
    decreases |bytes| - from
  {
    hide MatchLength, Piece, MatchedAt, Step;
    ends := [];
    if from < |bytes| {
      var s := bytes[from..];
      var next := from + Step(patterns, s);
      StepIsPiece(patterns, bytes, from);
      var rest := WindowShows(patterns, bytes, next, start, end);
      ends := [next] + rest;
      assert ends[1..] == rest;
    }
  }

  lemma EmptyWindow(patterns: seq<Bytes>, bytes: Bytes, start: nat, end: nat)
    ensures Window(patterns, bytes, |bytes|, start, end) == []
  {
  }

  lemma WindowStep(patterns: seq<Bytes>, bytes: Bytes, at: nat, start: nat, end: nat, before: Bytes)
    requires at < |bytes|
    ensures var s := bytes[at..];
            before + Window(patterns, bytes, at, start, end) ==
            (before + if start <= at < end then Shown(patterns, s) else [])
            + Window(patterns, bytes, at + Step(patterns, s), start, end)
  {
    hide Shown, Step;
  }

  method ByteWindow(patterns: seq<Bytes>, bytes: Bytes, start: nat, end: nat) returns (result: Bytes)
    requires Usable(patterns)
    ensures result == Window(patterns, bytes, 0, start, end)
    ensures exists ends ::
              CutAt(patterns, bytes, 0, ends) && result == PagePieces(patterns, bytes, 0, ends, start, end)
  {
    hide MatchLength, Shown, Step, CutAt, PagePieces, Window;
    ghost var ends := WindowShows(patterns, bytes, 0, start, end);
    EmptyWindow(patterns, bytes, start, end);
    result := [];
    var index := 0;
    assert [] + Window(patterns, bytes, 0, start, end) == Window(patterns, bytes, 0, start, end);
    while index < |bytes|
      invariant index <= |bytes|
      invariant Window(patterns, bytes, 0, start, end) == result + Window(patterns, bytes, index, start, end)
    {
      var s := bytes[index..];
      WindowStep(patterns, bytes, index, start, end, result);
      result := result + if start <= index < end then Shown(patterns, s) else [];
      index := index + Step(patterns, s);
    }
    assert result + [] == result;
  }

  lemma {:induction false} WindowBefore(patterns: seq<Bytes>, bytes: Bytes, at: nat, start: nat, end: nat)
    requires end <= at <= |bytes|
    ensures Window(patterns, bytes, at, start, end) == []
    decreases |bytes| - at
  {
    hide MatchLength;
    if at < |bytes| {
      WindowBefore(patterns, bytes, at + Step(patterns, bytes[at..]), start, end);
    }
  }

  /** Two adjacent pages join into one. */
  lemma {:induction false} PagesJoin(patterns: seq<Bytes>, bytes: Bytes, at: nat, start: nat, middle: nat, end: nat)
    requires at <= |bytes| && start <= middle <= end
    ensures Window(patterns, bytes, at, start, middle) + Window(patterns, bytes, at, middle, end)
         == Window(patterns, bytes, at, start, end)
    decreases |bytes| - at
  {
    hide MatchLength;
    if at < |bytes| {
      var s := bytes[at..];
      var next := at + Step(patterns, s);
      PagesJoin(patterns, bytes, next, start, middle, end);
      if middle <= at {
        WindowBefore(patterns, bytes, next, start, middle);
      }
    }
  }

  lemma {:induction false} WholeWindow(patterns: seq<Bytes>, bytes: Bytes, at: nat)
    requires at <= |bytes|
    ensures Window(patterns, bytes, at, 0, |bytes|) == Mask(patterns, bytes[at..])
    decreases |bytes| - at
  {
    hide MatchLength;
    if at < |bytes| {
      var s := bytes[at..];
      WholeWindow(patterns, bytes, at + Step(patterns, s));
      assert s[Step(patterns, s)..] == bytes[at + Step(patterns, s)..];
    }
  }

  function Pages(patterns: seq<Bytes>, bytes: Bytes, start: nat, ends: seq<nat>): Bytes
    decreases |ends|
  {
    if ends == [] then []
    else Window(patterns, bytes, 0, start, ends[0]) + Pages(patterns, bytes, ends[0], ends[1..])
  }

  ghost predicate Ascending(start: nat, ends: seq<nat>)
    decreases |ends|
  {
    ends == [] || (start <= ends[0] && Ascending(ends[0], ends[1..]))
  }

  /** Pages that follow one another up to the end show the mask of the whole. */
  lemma PagesShowTheMask(patterns: seq<Bytes>, bytes: Bytes, ends: seq<nat>)
    requires ends != [] && Ascending(0, ends) && ends[|ends| - 1] == |bytes|
    ensures Pages(patterns, bytes, 0, ends) == Mask(patterns, bytes)
  {
    PagesFrom(patterns, bytes, 0, ends);
    WholeWindow(patterns, bytes, 0);
    assert bytes[0..] == bytes;
  }

  lemma {:induction false} PagesFrom(patterns: seq<Bytes>, bytes: Bytes, start: nat, ends: seq<nat>)
    requires ends != [] && Ascending(start, ends)
    ensures start <= ends[|ends| - 1]
    ensures Pages(patterns, bytes, start, ends) == Window(patterns, bytes, 0, start, ends[|ends| - 1])
    decreases |ends|
  {
    hide Window;
    if |ends| > 1 {
      PagesFrom(patterns, bytes, ends[0], ends[1..]);
      PagesJoin(patterns, bytes, 0, start, ends[0], ends[|ends| - 1]);
    } else {
      assert ends[1..] == [];
      assert Window(patterns, bytes, 0, start, ends[0]) + [] == Window(patterns, bytes, 0, start, ends[0]);
    }
  }
}
