/** The registered secrets and the patterns that mask them. */
module Secrets {
  import opened ByteText
  import opened Redact
  import Json
  import Utf8

  /** A secret as it is and as it stands inside a JSON string. */
  datatype Secret = Secret(raw: Bytes, escaped: Bytes)

  function Spelled(text: string): Bytes {
    if text == [] then [] else Utf8.Encode(text[0] as int) + Spelled(text[1..])
  }

  function SecretOf(text: string): Secret { Secret(Spelled(text), Spelled(Json.EscapedAll(text))) }

  function NonEmpty(secrets: seq<Secret>): seq<Secret> {
    if secrets == [] then []
    else (if secrets[0].raw == [] then [] else [secrets[0]]) + NonEmpty(secrets[1..])
  }

  /** Before the first that is no longer, so equal lengths keep their order. */
  function Placed(s: Secret, sorted: seq<Secret>): seq<Secret> {
    if sorted == [] || |sorted[0].raw| <= |s.raw| then [s] + sorted
    else [sorted[0]] + Placed(s, sorted[1..])
  }

  function Sorted(secrets: seq<Secret>): seq<Secret> {
    if secrets == [] then [] else Placed(secrets[0], Sorted(secrets[1..]))
  }

  /** Drops a secret that equals the one before it. */
  function Deduplicated(secrets: seq<Secret>): seq<Secret> {
    if |secrets| <= 1 then secrets
    else if secrets[0] == secrets[1] then Deduplicated(secrets[1..])
    else [secrets[0]] + Deduplicated(secrets[1..])
  }

  function Pieces(secrets: seq<Secret>): seq<Bytes> {
    if secrets == [] then []
    else
      (if secrets[0].raw == [] then [] else [secrets[0].raw])
      + (if secrets[0].escaped == [] then [] else [secrets[0].escaped])
      + Pieces(secrets[1..])
  }

  /** Longest secret first, each followed by its escaped form. */
  function Patterns(registered: seq<Secret>): seq<Bytes> {
    Pieces(Deduplicated(Sorted(NonEmpty(registered))))
  }

  // ----- Every registered secret is a pattern

  lemma {:induction false} PiecesAreUsable(secrets: seq<Secret>)
    ensures Usable(Pieces(secrets))
  {
    if secrets != [] {
      PiecesAreUsable(secrets[1..]);
    }
  }

  lemma {:induction false} PlacedKeeps(s: Secret, sorted: seq<Secret>, e: Secret)
    ensures e in Placed(s, sorted) <==> e == s || e in sorted
  {
    if sorted != [] {
      PlacedKeeps(s, sorted[1..], e);
      assert e in sorted <==> e == sorted[0] || e in sorted[1..];
    }
  }

  lemma {:induction false} SortedKeeps(secrets: seq<Secret>, e: Secret)
    ensures e in Sorted(secrets) <==> e in secrets
  {
    if secrets != [] {
      SortedKeeps(secrets[1..], e);
      PlacedKeeps(secrets[0], Sorted(secrets[1..]), e);
      assert e in secrets <==> e == secrets[0] || e in secrets[1..];
    }
  }

  lemma {:induction false} NonEmptyKeeps(secrets: seq<Secret>, e: Secret)
    ensures e in NonEmpty(secrets) <==> e in secrets && e.raw != []
  {
    if secrets != [] {
      NonEmptyKeeps(secrets[1..], e);
      assert e in secrets <==> e == secrets[0] || e in secrets[1..];
    }
  }

  lemma {:induction false} DeduplicatedKeeps(secrets: seq<Secret>, e: Secret)
    ensures e in Deduplicated(secrets) <==> e in secrets
    decreases |secrets|
  {
    if |secrets| > 1 {
      DeduplicatedKeeps(secrets[1..], e);
      assert e in secrets <==> e == secrets[0] || e in secrets[1..];
      assert secrets[1] in secrets[1..];
    }
  }

  lemma {:induction false} PiecesKeep(secrets: seq<Secret>, e: Secret)
    requires e in secrets && e.raw != []
    ensures e.raw in Pieces(secrets) && (e.escaped != [] ==> e.escaped in Pieces(secrets))
  {
    if e != secrets[0] {
      assert e in secrets[1..];
      PiecesKeep(secrets[1..], e);
    }
  }

  lemma RegisteredIsPattern(registered: seq<Secret>, e: Secret)
    requires e in registered && e.raw != []
    ensures Usable(Patterns(registered)) && e.raw in Patterns(registered)
    ensures e.escaped != [] ==> e.escaped in Patterns(registered)
  {
    var sorted := Sorted(NonEmpty(registered));
    NonEmptyKeeps(registered, e);
    SortedKeeps(NonEmpty(registered), e);
    DeduplicatedKeeps(sorted, e);
    PiecesKeep(Deduplicated(sorted), e);
    PiecesAreUsable(Deduplicated(sorted));
  }

  ghost predicate LongestFirst(secrets: seq<Secret>) {
    forall j, k | 0 <= j < k < |secrets| :: |secrets[j].raw| >= |secrets[k].raw|
  }

  lemma {:induction false} PlacedIsOrdered(s: Secret, sorted: seq<Secret>)
    requires LongestFirst(sorted)
    ensures LongestFirst(Placed(s, sorted))
  {
    if sorted != [] && |sorted[0].raw| > |s.raw| {
      PlacedIsOrdered(s, sorted[1..]);
      var rest := Placed(s, sorted[1..]);
      forall k | 0 <= k < |rest|
        ensures |sorted[0].raw| >= |rest[k].raw|
      {
        PlacedKeeps(s, sorted[1..], rest[k]);
      }
    }
  }

  lemma {:induction false} SortedIsOrdered(secrets: seq<Secret>)
    ensures LongestFirst(Sorted(secrets))
  {
    if secrets != [] {
      SortedIsOrdered(secrets[1..]);
      PlacedIsOrdered(secrets[0], Sorted(secrets[1..]));
    }
  }

  /** No registered secret, nor its escaped form, is ever shown whole. */
  lemma SecretIsNeverShown(registered: seq<Secret>, e: Secret, text: Bytes, i: nat)
    requires e in registered && e.raw != [] && i < |text|
    requires e.raw <= text[i..] || (e.escaped != [] && e.escaped <= text[i..])
    ensures !ShownAt(Patterns(registered), text, i)
  {
    hide ShownAt, Patterns;
    var patterns := Patterns(registered);
    RegisteredIsPattern(registered, e);
    var p := if e.raw <= text[i..] then e.raw else e.escaped;
    var k :| 0 <= k < |patterns| && patterns[k] == p;
    OccurrenceIsHidden(patterns, text, i, k);
  }

  // ----- Longest first

  ghost predicate NeverShorter(secrets: seq<Secret>) {
    forall k | 0 <= k < |secrets| :: |secrets[k].escaped| >= |secrets[k].raw|
  }

  /** Every pattern tried before a secret is at least as long. */
  lemma {:induction false} LongerBefore(secrets: seq<Secret>, e: Secret) returns (k: nat)
    requires LongestFirst(secrets) && NeverShorter(secrets) && e in secrets && e.raw != []
    ensures k < |Pieces(secrets)| && Pieces(secrets)[k] == e.raw
    ensures forall l | 0 <= l < k :: |Pieces(secrets)[l]| >= |e.raw|
  {
    if e == secrets[0] {
      k := 0;
    } else {
      assert e in secrets[1..];
      var i :| 0 < i < |secrets| && secrets[i] == e;
      k := LongerBefore(secrets[1..], e);
      var first := (if secrets[0].raw == [] then [] else [secrets[0].raw])
        + (if secrets[0].escaped == [] then [] else [secrets[0].escaped]);
      assert Pieces(secrets) == first + Pieces(secrets[1..]);
      k := |first| + k;
    }
  }

  lemma {:induction false} DeduplicatedIsOrdered(secrets: seq<Secret>)
    requires LongestFirst(secrets)
    ensures LongestFirst(Deduplicated(secrets))
    decreases |secrets|
  {
    if |secrets| > 1 {
      DeduplicatedIsOrdered(secrets[1..]);
      var rest := Deduplicated(secrets[1..]);
      forall k | 0 <= k < |rest|
        ensures |secrets[0].raw| >= |rest[k].raw|
      {
        DeduplicatedKeeps(secrets[1..], rest[k]);
      }
    }
  }

  lemma PatternsAreOrdered(registered: seq<Secret>)
    requires NeverShorter(registered)
    ensures var secrets := Deduplicated(Sorted(NonEmpty(registered)));
            LongestFirst(secrets) && NeverShorter(secrets)
  {
    var kept := NonEmpty(registered);
    var secrets := Deduplicated(Sorted(kept));
    SortedIsOrdered(kept);
    DeduplicatedIsOrdered(Sorted(kept));
    forall k | 0 <= k < |secrets|
      ensures |secrets[k].escaped| >= |secrets[k].raw|
    {
      DeduplicatedKeeps(Sorted(kept), secrets[k]);
      SortedKeeps(kept, secrets[k]);
      NonEmptyKeeps(registered, secrets[k]);
    }
  }

  /** Every entry was registered as a text with its escaped form. */
  ghost predicate Added(registered: seq<Secret>) {
    forall k | 0 <= k < |registered| :: exists text :: registered[k] == SecretOf(text)
  }

  lemma AddedAreNeverShorter(registered: seq<Secret>)
    requires Added(registered)
    ensures NeverShorter(registered)
  {
    hide SecretOf;
    forall k | 0 <= k < |registered|
      ensures |registered[k].escaped| >= |registered[k].raw|
    {
      var text :| registered[k] == SecretOf(text);
      EscapingNeverShortens(text);
    }
  }

  /** Bytes of a secret are shown only where an earlier match overlaps it. */
  lemma SecretIsHiddenWhole(registered: seq<Secret>, e: Secret, text: Bytes, i: nat, j: nat)
    requires Added(registered) && e in registered && e.raw != []
    requires i < |text| && e.raw <= text[i..] && i <= j < i + |e.raw|
    ensures ShownAt(Patterns(registered), text, j) ==> Before(Patterns(registered), text, i).0 > i
  {
    AddedAreNeverShorter(registered);
    hide ShownAt, Before, MatchLength, Pieces, LongestFirst, NeverShorter, Added;
    var patterns := Patterns(registered);
    var secrets := Deduplicated(Sorted(NonEmpty(registered)));
    RegisteredIsPattern(registered, e);
    PatternsAreOrdered(registered);
    NonEmptyKeeps(registered, e);
    SortedKeeps(NonEmpty(registered), e);
    DeduplicatedKeeps(Sorted(NonEmpty(registered)), e);
    var k := LongerBefore(secrets, e);
    OccurrenceIsHidden(patterns, text, i, k);
    if Before(patterns, text, i).0 == i {
      FirstPatternMatches(patterns, text[i..]);
      MatchAtReached(patterns, text, i);
    }
  }

  /** Escaping a secret never shortens it. */
  lemma {:induction false} EscapingNeverShortens(text: string)
    ensures |SecretOf(text).escaped| >= |SecretOf(text).raw|
  {
    hide Json.Escaped;
    if text != [] {
      EscapingNeverShortens(text[1..]);
      SpelledConcat(Json.Escaped(text[0]), Json.EscapedAll(text[1..]));
      EscapedIsNoShorter(text[0]);
    }
  }

  lemma {:induction false} SpelledConcat(a: string, b: string)
    ensures Spelled(a + b) == Spelled(a) + Spelled(b)
  {
    hide Utf8.Encode;
    if a == [] {
      assert a + b == b;
    } else {
      SpelledConcat(a[1..], b);
      assert (a + b)[1..] == a[1..] + b;
    }
  }

  lemma EscapedIsNoShorter(c: char)
    ensures |Spelled(Json.Escaped(c))| >= |Utf8.Encode(c as int)|
  {
    var e := Json.Escaped(c);
    if e != [c] {
      assert e == [e[0]] + e[1..] && e[1..] != [];
      assert |Utf8.Encode(c as int)| == 1;
    } else {
      assert e[1..] == [] && Spelled(e) == Utf8.Encode(c as int) + [];
    }
  }

  // ----- Bytes kept back although nothing can mask them

  const X: Byte := 'x' as int
  const A: Byte := 'a' as int
  const B: Byte := 'b' as int
  const Q: Byte := 'Q' as int
  const U: Byte := 'u' as int
  const BACKSLASH: Byte := '\\' as int

  lemma {:induction false} PlainSecret(text: string)
    requires forall k | 0 <= k < |text| :: 'A' <= text[k] <= 'z' && text[k] != '\\'
    ensures Json.EscapedAll(text) == text
  {
    if text != [] {
      PlainSecret(text[1..]);
    }
  }

  lemma {:induction false} AsciiSpelled(text: string)
    requires forall k | 0 <= k < |text| :: text[k] as int < 0x80
    ensures |Spelled(text)| == |text| && forall k | 0 <= k < |text| :: Spelled(text)[k] == text[k] as int
  {
    if text != [] {
      AsciiSpelled(text[1..]);
    }
  }

  lemma OneMorePattern(p: Bytes, rest: seq<Bytes>, s: Bytes)
    ensures MatchLength([p] + rest, s) == if p <= s then |p| else MatchLength(rest, s)
    ensures MayBegin([p] + rest, s) <==> (|p| > |s| && s <= p) || MayBegin(rest, s)
    ensures Undecided([p] + rest, s) <==> !(p <= s) && ((|p| > |s| && s <= p) || Undecided(rest, s))
  {
    var all := [p] + rest;
    assert all[0] == p && all[1..] == rest;
    assert forall k | 0 <= k < |rest| :: all[k + 1] == rest[k];
    if MayBegin(rest, s) {
      var k :| 0 <= k < |rest| && |rest[k]| > |s| && s <= rest[k];
      assert all[k + 1] == rest[k];
    }
  }

  lemma TwoPatterns(p: Bytes, q: Bytes, s: Bytes)
    ensures MatchLength([p, q], s) == if p <= s then |p| else if q <= s then |q| else 0
    ensures MayBegin([p, q], s) <==> (|p| > |s| && s <= p) || (|q| > |s| && s <= q)
    ensures Undecided([p, q], s) <==>
            !(p <= s) && ((|p| > |s| && s <= p) || (!(q <= s) && |q| > |s| && s <= q))
  {
    assert [q] + [] == [q] && [p] + [q] == [p, q];
    OneMorePattern(q, [], s);
    OneMorePattern(p, [q], s);
  }

  lemma FourPatterns(p: Bytes, q: Bytes, s: Bytes)
    ensures MatchLength([p, p, q, q], s) == MatchLength([p, q], s)
    ensures MayBegin([p, p, q, q], s) <==> MayBegin([p, q], s)
    ensures Undecided([p, p, q, q], s) <==> Undecided([p, q], s)
  {
    hide MatchLength, MayBegin, Undecided;
    assert [p] + [q] == [p, q] && [q] + [q] == [q, q] && [p] + [q, q] == [p, q, q];
    assert [p] + [p, q, q] == [p, p, q, q];
    OneMorePattern(p, [q], s);
    OneMorePattern(q, [], s);
    assert [q] + [] == [q];
    OneMorePattern(q, [q], s);
    OneMorePattern(p, [q, q], s);
    OneMorePattern(p, [p, q, q], s);
  }

  lemma PatternsOfTwo(long: Secret, short: Secret)
    requires |long.raw| > |short.raw| > 0 && long.escaped != [] && short.escaped != []
    ensures Patterns([short, long]) == [long.raw, long.escaped, short.raw, short.escaped]
  {
    assert [short, long][1..] == [long] && [long][1..] == [];
    assert NonEmpty([long]) == [long] && NonEmpty([short, long]) == [short, long];
    assert Sorted([long]) == [long];
    assert [long][1..] == [] && Placed(short, []) == [short];
    assert Sorted([short, long]) == [long, short];
    assert [long, short][1..] == [short];
    assert Deduplicated([short]) == [short] && Deduplicated([long, short]) == [long, short];
    assert Pieces([short]) == [short.raw, short.escaped];
  }

  /** With the secrets `abQ` and `xa` the final `b` of `xab` is kept back,
      although every continuation shows it. */
  lemma PlainByteIsHeld()
    ensures var patterns := Patterns([SecretOf("xa"), SecretOf("abQ")]);
            && Spooled(patterns, [], [X, A, B]) == ([B], REDACTED) && Settled(patterns, [B], 0)
  {
    OverlappingSecrets();
    hide SecretOf, Patterns, Spooled, Settled;
    HeldBehindMatch([A, B, Q], [X, A]);
  }

  /** Plain characters are spelled as they are, and stay so when escaped. */
  lemma PlainSecretOf(text: string, bytes: Bytes)
    requires |bytes| == |text| && forall k | 0 <= k < |text| :: 'A' <= text[k] <= 'z' && text[k] != '\\'
    requires forall k | 0 <= k < |text| :: bytes[k] == text[k] as int
    ensures SecretOf(text) == Secret(bytes, bytes)
  {
    PlainSecret(text);
    AsciiSpelled(text);
    hide Spelled;
    assert Spelled(text) == bytes;
  }

  lemma OverlappingSecrets()
    ensures Patterns([SecretOf("xa"), SecretOf("abQ")]) == [[A, B, Q], [A, B, Q], [X, A], [X, A]]
  {
    PlainSecretOf("xa", [X, A]);
    PlainSecretOf("abQ", [A, B, Q]);
    hide SecretOf;
    PatternsOfTwo(SecretOf("abQ"), SecretOf("xa"));
  }

  lemma HeldBehindMatch(p: Bytes, q: Bytes)
    requires p == [A, B, Q] && q == [X, A]
    ensures Spooled([p, p, q, q], [], [X, A, B]) == ([B], REDACTED) && Settled([p, p, q, q], [B], 0)
  {
    var patterns, bytes, open, last := [p, p, q, q], [X, A, B], [A, B], [B];
    hide MatchLength, MayBegin, Undecided;
    TwoPatterns(p, q, bytes);
    FourPatterns(p, q, bytes);
    TwoPatterns(p, q, open);
    FourPatterns(p, q, open);
    TwoPatterns(p, q, last);
    FourPatterns(p, q, last);
    assert p[0] != bytes[0] && p[0] != last[0] && q[0] != last[0];
    assert q <= bytes && open <= p;
    assert bytes[0..] == bytes && bytes[1..] == open && bytes[2..] == last && [] + bytes == bytes;
    assert !MayBegin(patterns, bytes) && MayBegin(patterns, open);
    assert Safe(patterns, bytes) == 1;
    assert MatchLength(patterns, bytes) == 2 && Shown(patterns, bytes) == REDACTED;
    assert Scan(patterns, bytes, 2, 1) == (2, []);
    assert Scan(patterns, bytes, 0, 1) == (2, REDACTED + []);
    assert REDACTED + [] == REDACTED;
    assert MeetsPlainByte(patterns, last);
    var j := PlainByteIsSettled(patterns, last);
  }

  /** A secret that ends in backslashes is a beginning of its own escaped form:
      with `u\\` the third backslash of `u\\\` is kept back, although every
      continuation shows it and no match ran across the safe end. */
  lemma PlainByteIsHeldByEscape()
    ensures var patterns := Patterns([SecretOf("u\\\\")]);
            var bytes := [U, BACKSLASH, BACKSLASH, BACKSLASH];
            && Safe(patterns, bytes) == 0 && Spooled(patterns, [], bytes) == (bytes, []) && Settled(patterns, bytes, 3)
  {
    hide Safe, Spooled, Settled, SecretOf, Patterns;
    var p, q := [U, BACKSLASH, BACKSLASH], [U, BACKSLASH, BACKSLASH, BACKSLASH, BACKSLASH];
    EscapedBackslashes();
    PatternsOfOne(Secret(p, q));
    HeldByEscape(p, q);
  }

  lemma EscapedBackslashes()
    ensures SecretOf("u\\\\") == Secret([U, BACKSLASH, BACKSLASH], [U, BACKSLASH, BACKSLASH, BACKSLASH, BACKSLASH])
  {
    AsciiSpelled("u\\\\");
    AsciiSpelled("u\\\\\\\\");
    assert Json.EscapedAll("\\") == "\\\\" + Json.EscapedAll("");
    assert "\\\\"[1..] == "\\" && Json.EscapedAll("\\\\") == "\\\\" + "\\\\";
    assert "u\\\\"[1..] == "\\\\" && Json.EscapedAll("u\\\\") == "u" + "\\\\\\\\";
    assert "u" + "\\\\\\\\" == "u\\\\\\\\";
  }

  lemma PatternsOfOne(e: Secret)
    requires e.raw != [] && e.escaped != []
    ensures Patterns([e]) == [e.raw, e.escaped]
  {
    assert [e][1..] == [];
    assert NonEmpty([e]) == [e] && Sorted([e]) == [e];
    assert Pieces([e]) == [e.raw] + [e.escaped] + [];
  }

  lemma HeldByEscape(p: Bytes, q: Bytes)
    requires p == [U, BACKSLASH, BACKSLASH] && q == [U, BACKSLASH, BACKSLASH, BACKSLASH, BACKSLASH]
    ensures var bytes := [U, BACKSLASH, BACKSLASH, BACKSLASH];
            && Safe([p, q], bytes) == 0 && Spooled([p, q], [], bytes) == (bytes, []) && Settled([p, q], bytes, 3)
  {
    var bytes := [U, BACKSLASH, BACKSLASH, BACKSLASH];
    hide MatchLength, MayBegin, Undecided;
    TwoPatterns(p, q, bytes);
    TwoPatterns(p, q, [BACKSLASH]);
    assert bytes[0..] == bytes && [] + bytes == bytes && bytes[3..] == [BACKSLASH];
    assert bytes <= q && p <= bytes;
    assert p[0] != BACKSLASH && q[0] != BACKSLASH;
    assert !Undecided([p, q], [BACKSLASH]) && MatchLength([p, q], [BACKSLASH]) == 0;
    var j := PlainByteIsSettled([p, q], [BACKSLASH]);
    SettledLater([p, q], bytes, 3);
  }

  lemma SettledLater(patterns: seq<Bytes>, s: Bytes, n: nat)
    requires !Undecided(patterns, s) && MatchLength(patterns, s) == n && 0 < n < |s|
    requires Settled(patterns, s[n..], 0)
    ensures Settled(patterns, s, n)
  {
    hide Undecided, MatchLength;
    forall more: Bytes
      ensures ShownAt(patterns, s + more, n)
    {
      DecidedMatch(patterns, s, more);
      assert (s + more)[n..] == s[n..] + more;
      assert ShownAt(patterns, s[n..] + more, 0);
    }
  }
}
