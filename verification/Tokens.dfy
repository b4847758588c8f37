/**
  The glob tokenizer: what it makes of every pattern, and that every token
  list it can make has a pattern of its own.
 */
module Tokens {
  import opened Wrappers
  import opened ByteText
  import opened Glob

  // ----- One bracket expression

  datatype Bracket = Bracket(ranges: seq<(Byte, Byte)>, used: nat)

  /** One range of a bracket expression: its ends and the bytes it takes. */
  function OneRange(s: Bytes): (r: Option<(Byte, Byte, nat)>)
    ensures r.Some? ==> 1 <= r.value.2 <= |s|
  {
    if s == [] then None
    else
      var a := if s[0] == BACKSLASH then 1 else 0;
      if a >= |s| then None
      else
        var low, n := s[a], a + 1;
        if n + 1 < |s| && s[n] == DASH && s[n + 1] != CLOSE then
          var h := if s[n + 1] == BACKSLASH then n + 2 else n + 1;
          if h >= |s| then None else Some((low, s[h], h + 1))
        else Some((low, low, n))
  }

  /** The ranges up to the closing bracket; the first byte never closes. */
  function BracketFrom(w: bool, s: Bytes, first: bool): (r: Option<Bracket>)
    ensures r.Some? ==> r.value.used <= |s| && (first ==> r.value.ranges != [])
    ensures r.Some? ==> r.value.used > 0 && s[r.value.used - 1] == CLOSE
    ensures r.Some? ==> FoldedRanges(w, r.value.ranges)
    decreases |s|
  {
    if s == [] then None
    else if s[0] == CLOSE && !first then Some(Bracket([], 1))
    else match OneRange(s)
      case None => None
      case Some((low, high, n)) =>
        match BracketFrom(w, s[n..], false)
        case None => None
        case Some(rest) =>
          FoldTwice(w, low);
          FoldTwice(w, high);
          Some(Bracket([(Fold(w, low), Fold(w, high))] + rest.ranges, n + rest.used))
  }

  predicate FoldedRanges(w: bool, ranges: seq<(Byte, Byte)>) {
    forall k | 0 <= k < |ranges| :: Fold(w, ranges[k].0) == ranges[k].0 && Fold(w, ranges[k].1) == ranges[k].1
  }

  lemma FoldTwice(w: bool, byte: Byte)
    ensures Fold(w, Fold(w, byte)) == Fold(w, byte)
  {
  }

  predicate Negates(s: Bytes) { s != [] && (s[0] == BANG || s[0] == CARET) }

  function BracketOf(w: bool, s: Bytes): Option<Bracket> {
    BracketFrom(w, if Negates(s) then s[1..] else s, true)
  }

  // ----- One token

  function Stars(s: Bytes): (n: nat)
    ensures n <= |s| && (n < |s| ==> s[n] != STAR)
    ensures forall k | 0 <= k < n :: s[k] == STAR
  {
    if s == [] || s[0] != STAR then 0 else 1 + Stars(s[1..])
  }

  /** The token a pattern starts with and the bytes it takes. `start` says that
      a path segment starts here. */
  function Next(w: bool, start: bool, s: Bytes): (r: (Token, nat))
    requires s != []
    ensures 1 <= r.1 <= |s|
  {
    var byte := s[0];
    if byte == BACKSLASH && |s| > 1 then (Literal(Fold(w, s[1])), 2)
    else if byte == QUESTION then (One, 1)
    else if byte == STAR then
      var n := 1 + Stars(s[1..]);
      var segment := n > 1 && start;
      if segment && n == |s| then (All, n)
      else if segment && s[n] == SLASH then (Dirs, n + 1)
      else (Star, n)
    else if byte == OPEN then
      match BracketOf(w, s[1..])
      case Some(bracket) =>
        var skipped := if Negates(s[1..]) then 2 else 1;
        (Class(skipped == 2, bracket.ranges), skipped + bracket.used)
      case None => (Literal(OPEN), 1)
    else (Literal(Fold(w, byte)), 1)
  }

  function TokensFrom(w: bool, start: bool, s: Bytes): seq<Token>
    decreases |s|
  {
    if s == [] then []
    else
      var (token, n) := Next(w, start, s);
      [token] + TokensFrom(w, s[n - 1] == SLASH, s[n..])
  }

  function TokensOf(w: bool, pattern: Bytes): seq<Token> {
    TokensFrom(w, true, pattern)
  }

  // ----- The loops

  method RangeAt(pattern: Bytes, start: nat) returns (r: Option<(Byte, Byte, nat)>)
    requires start < |pattern|
    ensures match OneRange(pattern[start..])
            case None => r == None
            case Some((low, high, n)) => r == Some((low, high, start + n))
  {
    var at := start;
    var low := pattern[at];
    at := at + 1;
    if low == BACKSLASH {
      if at >= |pattern| {
        return None;
      }
      low := pattern[at];
      at := at + 1;
    }
    var high := low;
    if at < |pattern| && pattern[at] == DASH && at + 1 < |pattern| && pattern[at + 1] != CLOSE {
      high := pattern[at + 1];
      at := at + 2;
      if high == BACKSLASH {
        if at >= |pattern| {
          return None;
        }
        high := pattern[at];
        at := at + 1;
      }
    }
    return Some((low, high, at));
  }

  /** With `ranges` read and `rest` ahead, `whole` is what comes out. */
  ghost predicate Pending(w: bool, whole: Option<Bracket>, ranges: seq<(Byte, Byte)>, taken: nat, rest: Bytes) {
    match BracketFrom(w, rest, ranges == [])
    case None => whole == None
    case Some(b) => whole == Some(Bracket(ranges + b.ranges, taken + b.used))
  }

  lemma PendingStart(w: bool, pattern: Bytes)
    ensures Pending(w, BracketOf(w, pattern), [], 0, pattern[if Negates(pattern) then 1 else 0..])
  {
    hide BracketFrom;
    assert pattern[0..] == pattern;
    var whole := BracketOf(w, pattern);
    assert whole.Some? ==> [] + whole.value.ranges == whole.value.ranges;
  }

  lemma PendingStep(w: bool, whole: Option<Bracket>, ranges: seq<(Byte, Byte)>, taken: nat, rest: Bytes)
    requires rest != [] && Pending(w, whole, ranges, taken, rest)
    ensures if rest[0] == CLOSE && ranges != [] then whole == Some(Bracket(ranges, taken + 1))
            else match OneRange(rest)
              case None => whole == None
              case Some((low, high, n)) =>
                Pending(w, whole, ranges + [(Fold(w, low), Fold(w, high))], taken + n, rest[n..])
  {
    hide OneRange, FoldedRanges;
    if rest[0] == CLOSE && ranges != [] {
      assert ranges + [] == ranges;
    } else if OneRange(rest).Some? {
      var (low, high, n) := OneRange(rest).value;
      var range := (Fold(w, low), Fold(w, high));
      var tail := BracketFrom(w, rest[n..], false);
      if tail.Some? {
        assert ranges + ([range] + tail.value.ranges) == (ranges + [range]) + tail.value.ranges;
      }
    }
  }

  method BracketExpression(w: bool, pattern: Bytes) returns (r: Option<(Token, nat)>)
    ensures match BracketOf(w, pattern)
            case None => r == None
            case Some(b) =>
              var skipped := if Negates(pattern) then 1 else 0;
              r == Some((Class(Negates(pattern), b.ranges), skipped + b.used))
  {
    hide OneRange, FoldedRanges, BracketFrom, BracketOf, Pending, Fold;
    var negated := Negates(pattern);
    var skipped := if negated then 1 else 0;
    var at := skipped;
    var ranges: seq<(Byte, Byte)> := [];
    ghost var whole := BracketOf(w, pattern);
    PendingStart(w, pattern);
    while at < |pattern|
      invariant skipped <= at <= |pattern|
      invariant Pending(w, whole, ranges, at - skipped, pattern[at..])
    {
      PendingStep(w, whole, ranges, at - skipped, pattern[at..]);
      if pattern[at] == CLOSE && ranges != [] {
        return Some((Class(negated, ranges), at + 1));
      }
      var next := RangeAt(pattern, at);
      if next.None? {
        return None;
      }
      var (low, high, after) := next.value;
      assert pattern[at..][after - at..] == pattern[after..];
      ranges := ranges + [(Fold(w, low), Fold(w, high))];
      at := after;
    }
    assert pattern[at..] == [];
    NothingPending(w, whole, ranges, at - skipped);
    return None;
  }

  lemma NothingPending(w: bool, whole: Option<Bracket>, ranges: seq<(Byte, Byte)>, taken: nat)
    requires Pending(w, whole, ranges, taken, [])
    ensures whole == None
  {
  }

  /** The run of stars from `at` on. */
  method StarsEnd(pattern: Bytes, start: nat) returns (at: nat)
    requires start <= |pattern|
    ensures start <= at <= |pattern| && at - start == Stars(pattern[start..])
  {
    at := start;
    while at < |pattern| && pattern[at] == STAR
      invariant start <= at <= |pattern|
      invariant Stars(pattern[start..]) == at - start + Stars(pattern[at..])
    {
      assert pattern[at..][1..] == pattern[at + 1..];
      at := at + 1;
    }
    assert Stars(pattern[at..]) == 0;
  }

  method NextToken(w: bool, pattern: Bytes, start: nat) returns (token: Token, at: nat)
    requires start < |pattern|
    ensures start < at <= |pattern|
    ensures (token, at - start) == Next(w, start == 0 || pattern[start - 1] == SLASH, pattern[start..])
  {
    hide BracketOf, Stars;
    ghost var s := pattern[start..];
    var byte := pattern[start];
    at := start + 1;
    assert s[1..] == pattern[at..];
    if byte == BACKSLASH && at < |pattern| {
      token := Literal(Fold(w, pattern[at]));
      at := at + 1;
    } else if byte == QUESTION {
      token := One;
    } else if byte == STAR {
      at := StarsEnd(pattern, at);
      assert at - start == 1 + Stars(s[1..]);
      var segment := at - start > 1 && (start == 0 || pattern[start - 1] == SLASH);
      if segment && at == |pattern| {
        token := All;
      } else if segment && pattern[at] == SLASH {
        at := at + 1;
        token := Dirs;
      } else {
        token := Star;
      }
    } else if byte == OPEN {
      var bracket := BracketExpression(w, pattern[at..]);
      match bracket {
        case Some((class_, used)) =>
          token := class_;
          at := at + used;
          assert (token, at - start) == Next(w, start == 0 || pattern[start - 1] == SLASH, s);
        case None =>
          token := Literal(OPEN);
      }
    } else {
      token := Literal(Fold(w, byte));
      assert (token, at - start) == Next(w, start == 0 || pattern[start - 1] == SLASH, s);
    }
  }

  lemma TokensStep(w: bool, start: bool, s: Bytes, done: seq<Token>)
    requires s != []
    ensures var (token, n) := Next(w, start, s);
            done + TokensFrom(w, start, s) == (done + [token]) + TokensFrom(w, s[n - 1] == SLASH, s[n..])
  {
    hide Next;
  }

  method Tokenize(w: bool, pattern: Bytes) returns (tokens: seq<Token>)
    ensures tokens == TokensOf(w, pattern)
  {
    hide Next, TokensFrom;
    tokens := [];
    var at := 0;
    assert pattern[0..] == pattern;
    ghost var start := true;
    while at < |pattern|
      invariant 0 <= at <= |pattern|
      invariant start == (at == 0 || pattern[at - 1] == SLASH)
      invariant TokensOf(w, pattern) == tokens + TokensFrom(w, start, pattern[at..])
    {
      TokensStep(w, start, pattern[at..], tokens);
      var token, next := NextToken(w, pattern, at);
      assert pattern[at..][next - at..] == pattern[next..];
      assert pattern[at..][next - at - 1] == pattern[next - 1];
      tokens := tokens + [token];
      at := next;
      start := pattern[at - 1] == SLASH;
    }
    assert pattern[at..] == [];
    NoTokensLeft(w, start);
    assert tokens + [] == tokens;
  }

  lemma NoTokensLeft(w: bool, start: bool)
    ensures TokensFrom(w, start, []) == []
  {
  }

  // ----- The token lists patterns have

  /** `start`: a path segment starts before the first token. */
  ghost predicate Canonical(w: bool, start: bool, tokens: seq<Token>)
    decreases |tokens|
  {
    tokens == []
    || (&& CanonicalToken(w, start, tokens[0], tokens[1..])
        && Canonical(w, EndsSegment(tokens[0]), tokens[1..]))
  }

  ghost predicate EndsSegment(token: Token) { token == Dirs || token == Literal(SLASH) }

  /** `**` starts a segment, `All` ends the pattern, stars never touch, and
      every byte is already folded. */
  ghost predicate CanonicalToken(w: bool, start: bool, token: Token, rest: seq<Token>) {
    match token
    case Literal(byte) => Fold(w, byte) == byte
    case One => true
    case Star => rest == [] || rest[0] !in {Star, Dirs, All}
    case Dirs => start
    case All => start && rest == []
    case Class(_, ranges) => ranges != [] && FoldedRanges(w, ranges)
  }

  lemma BracketIsCanonical(w: bool, start: bool, s: Bytes)
    requires s != [] && s[0] == OPEN
    ensures var (token, n) := Next(w, start, s);
            && (token == Literal(OPEN) || (token.Class? && token.ranges != [] && FoldedRanges(w, token.ranges)))
            && s[n - 1] in {OPEN, CLOSE}
  {
    hide BracketFrom, FoldedRanges;
  }

  lemma NextIsCanonical(w: bool, start: bool, s: Bytes)
    requires s != []
    ensures var (token, n) := Next(w, start, s);
            && CanonicalToken(w, start, token, TokensFrom(w, s[n - 1] == SLASH, s[n..]))
            && (EndsSegment(token) <==> s[n - 1] == SLASH)
  {
    hide BracketOf, FoldedRanges, Stars;
    var (token, n) := Next(w, start, s);
    if s[0] == OPEN {
      BracketIsCanonical(w, start, s);
    } else if token == Star {
      NoStarNext(w, s[n - 1] == SLASH, s[n..]);
    } else if token.Literal? {
      FoldTwice(w, s[n - 1]);
    }
  }

  lemma NoStarNext(w: bool, start: bool, s: Bytes)
    requires s == [] || s[0] != STAR
    ensures var tokens := TokensFrom(w, start, s); tokens == [] || tokens[0] !in {Star, Dirs, All}
  {
    hide BracketOf;
    if s != [] {
      var (token, n) := Next(w, start, s);
      assert TokensFrom(w, start, s)[0] == token;
      assert token.Literal? || token.One? || token.Class?;
    }
  }

  lemma {:induction false} TokensAreCanonical(w: bool, start: bool, s: Bytes)
    ensures Canonical(w, start, TokensFrom(w, start, s))
    decreases |s|
  {
    if s != [] {
      var (token, n) := Next(w, start, s);
      NextIsCanonical(w, start, s);
      TokensAreCanonical(w, s[n - 1] == SLASH, s[n..]);
    }
  }

  /** `All` is only ever the last token, so nothing after it is ignored. */
  lemma {:induction false} AllIsLast(w: bool, start: bool, tokens: seq<Token>)
    requires Canonical(w, start, tokens)
    ensures ThroughAll(tokens) == tokens
    decreases |tokens|
  {
    if tokens != [] {
      AllIsLast(w, EndsSegment(tokens[0]), tokens[1..]);
    }
  }

  // ----- A pattern for every such list

  function RenderRanges(ranges: seq<(Byte, Byte)>): Bytes {
    if ranges == [] then []
    else [BACKSLASH, ranges[0].0, DASH, BACKSLASH, ranges[0].1] + RenderRanges(ranges[1..])
  }

  function RenderToken(token: Token): Bytes {
    match token
    case Literal(byte) => [BACKSLASH, byte]
    case One => [QUESTION]
    case Star => [STAR]
    case Dirs => [STAR, STAR, SLASH]
    case All => [STAR, STAR]
    case Class(negated, ranges) => [OPEN] + (if negated then [BANG] else []) + RenderRanges(ranges) + [CLOSE]
  }

  function Render(tokens: seq<Token>): Bytes {
    if tokens == [] then [] else RenderToken(tokens[0]) + Render(tokens[1..])
  }

  lemma RangeReadsBack(low: Byte, high: Byte, rest: Bytes)
    ensures OneRange([BACKSLASH, low, DASH, BACKSLASH, high] + rest) == Some((low, high, 5))
  {
  }

  /** The text of the first range, and that of the others behind it. */
  lemma FirstRange(ranges: seq<(Byte, Byte)>, rest: Bytes)
    requires ranges != []
    ensures var s, tail := RenderRanges(ranges) + ([CLOSE] + rest), RenderRanges(ranges[1..]) + ([CLOSE] + rest);
            && |s| >= 5 && s[0] == BACKSLASH && s[5..] == tail
            && OneRange(s) == Some((ranges[0].0, ranges[0].1, 5))
            && |RenderRanges(ranges)| == |RenderRanges(ranges[1..])| + 5
  {
    hide OneRange;
    var (low, high) := ranges[0];
    var five := [BACKSLASH, low, DASH, BACKSLASH, high];
    assert RenderRanges(ranges) == five + RenderRanges(ranges[1..]);
    RangeReadsBack(low, high, RenderRanges(ranges[1..]) + ([CLOSE] + rest));
    assert five[0] == BACKSLASH && |five| == 5;
    hide *;
    ThreeAhead(five, RenderRanges(ranges[1..]), [CLOSE] + rest);
  }

  lemma ThreeAhead(a: Bytes, b: Bytes, c: Bytes)
    requires a != []
    ensures (a + b) + c == a + (b + c) && ((a + b) + c)[|a|..] == b + c && ((a + b) + c)[0] == a[0]
  {
  }

  lemma {:induction false} BracketReadsBack(w: bool, ranges: seq<(Byte, Byte)>, rest: Bytes, first: bool)
    requires FoldedRanges(w, ranges) && (first ==> ranges != [])
    ensures BracketFrom(w, RenderRanges(ranges) + ([CLOSE] + rest), first)
         == Some(Bracket(ranges, |RenderRanges(ranges)| + 1))
    decreases |ranges|
  {
    hide BracketFrom, RenderRanges, OneRange, Fold;
    if ranges == [] {
      NoRanges(w, rest);
    } else {
      var (low, high) := ranges[0];
      FirstRange(ranges, rest);
      BracketReadsBack(w, ranges[1..], rest, false);
      OneMoreRange(w, RenderRanges(ranges) + ([CLOSE] + rest), low, high, ranges[1..], first);
      assert ranges == [ranges[0]] + ranges[1..];
    }
  }

  lemma NoRanges(w: bool, rest: Bytes)
    ensures RenderRanges([]) == [] && BracketFrom(w, [] + ([CLOSE] + rest), false) == Some(Bracket([], 1))
  {
  }

  lemma OneMoreRange(w: bool, s: Bytes, low: Byte, high: Byte, ranges: seq<(Byte, Byte)>, first: bool)
    requires |s| >= 5 && s[0] != CLOSE && OneRange(s) == Some((low, high, 5))
    requires Fold(w, low) == low && Fold(w, high) == high
    requires BracketFrom(w, s[5..], false).Some? && BracketFrom(w, s[5..], false).value.ranges == ranges
    ensures BracketFrom(w, s, first) ==
            Some(Bracket([(low, high)] + ranges, BracketFrom(w, s[5..], false).value.used + 5))
  {
    hide OneRange, Fold, FoldedRanges;
  }

  lemma ExpressionReadsBack(w: bool, negated: bool, ranges: seq<(Byte, Byte)>, rest: Bytes)
    requires ranges != [] && FoldedRanges(w, ranges)
    ensures var s := (if negated then [BANG] else []) + (RenderRanges(ranges) + ([CLOSE] + rest));
            Negates(s) == negated && BracketOf(w, s) == Some(Bracket(ranges, |RenderRanges(ranges)| + 1))
  {
    hide BracketFrom, FoldedRanges;
    var body := RenderRanges(ranges) + ([CLOSE] + rest);
    assert !Negates(body);
    assert ([BANG] + body)[1..] == body && [] + body == body;
    BracketReadsBack(w, ranges, rest, true);
  }

  lemma ClassReadsBack(w: bool, start: bool, negated: bool, ranges: seq<(Byte, Byte)>, rest: Bytes)
    requires ranges != [] && FoldedRanges(w, ranges)
    ensures var t := Class(negated, ranges); Next(w, start, RenderToken(t) + rest) == (t, |RenderToken(t)|)
  {
    hide BracketOf, FoldedRanges, RenderRanges, Stars;
    var s := RenderToken(Class(negated, ranges)) + rest;
    var tail := (if negated then [BANG] else []) + (RenderRanges(ranges) + ([CLOSE] + rest));
    ExpressionReadsBack(w, negated, ranges, rest);
    assert s == [OPEN] + tail;
    assert s[1..] == tail;
  }

  lemma StarsReadBack(w: bool, start: bool, token: Token, rest: Bytes)
    requires token in {Star, Dirs, All}
    requires token == Star ==> rest == [] || rest[0] != STAR
    requires token != Star ==> start && (token == All ==> rest == [])
    ensures Next(w, start, RenderToken(token) + rest) == (token, |RenderToken(token)|)
  {
    hide BracketOf;
    var s := RenderToken(token) + rest;
    match token
    case Star =>
      assert s[1..] == rest && Stars(rest) == 0;
    case Dirs =>
      assert s[1..][1..] == [SLASH] + rest && Stars([SLASH] + rest) == 0;
    case All =>
      assert s[1..][1..] == [] && Stars([]) == 0;
  }

  lemma RenderedStart(token: Token)
    ensures |RenderToken(token)| > 0
    ensures RenderToken(token)[0] == STAR <==> token in {Star, Dirs, All}
    ensures EndsSegment(token) <==> RenderToken(token)[|RenderToken(token)| - 1] == SLASH
  {
  }

  lemma NextReadsBack(w: bool, start: bool, token: Token, tokens: seq<Token>)
    requires CanonicalToken(w, start, token, tokens)
    ensures Next(w, start, RenderToken(token) + Render(tokens)) == (token, |RenderToken(token)|)
  {
    if token.Class? {
      hide FoldedRanges;
      ClassReadsBack(w, start, token.negated, token.ranges, Render(tokens));
    } else if token in {Star, Dirs, All} {
      if tokens != [] {
        RenderedStart(tokens[0]);
      }
      StarsReadBack(w, start, token, Render(tokens));
    }
  }

  lemma FirstToken(w: bool, start: bool, head: Bytes, rest: Bytes, token: Token)
    requires head != [] && Next(w, start, head + rest) == (token, |head|)
    ensures TokensFrom(w, start, head + rest) == [token] + TokensFrom(w, head[|head| - 1] == SLASH, rest)
  {
    hide Next;
    assert (head + rest)[|head|..] == rest;
  }

  /** Rendering a canonical token list and reading it again gives the list. */
  lemma {:induction false} RenderReadsBack(w: bool, start: bool, tokens: seq<Token>)
    requires Canonical(w, start, tokens)
    ensures TokensFrom(w, start, Render(tokens)) == tokens
    decreases |tokens|
  {
    hide Next, RenderToken, CanonicalToken, EndsSegment, TokensFrom;
    if tokens == [] {
      NoTokens(w, start);
    } else {
      NextReadsBack(w, start, tokens[0], tokens[1..]);
      RenderedStart(tokens[0]);
      FirstToken(w, start, RenderToken(tokens[0]), Render(tokens[1..]), tokens[0]);
      RenderReadsBack(w, EndsSegment(tokens[0]), tokens[1..]);
      assert tokens == [tokens[0]] + tokens[1..];
    }
  }

  lemma NoTokens(w: bool, start: bool)
    ensures TokensFrom(w, start, Render([])) == []
  {
  }

  // ----- Patterns and texts

  lemma {:induction false} CanonicalAt(w: bool, start: bool, tokens: seq<Token>, k: nat)
    requires Canonical(w, start, tokens) && k < |tokens|
    ensures CanonicalToken(w, if k == 0 then start else EndsSegment(tokens[k - 1]), tokens[k], tokens[k + 1..])
    decreases |tokens|
  {
    if k > 0 {
      CanonicalAt(w, EndsSegment(tokens[0]), tokens[1..], k - 1);
      assert tokens[1..][k - 1 + 1..] == tokens[k + 1..];
    }
  }

  /** However a text is cut, `**` takes over at the start of a path segment,
      so it takes whole directories. */
  lemma {:induction false} DirsStartSegments(w: bool, tokens: seq<Token>, text: Bytes, pieces: seq<Bytes>, k: nat)
    requires Canonical(w, true, tokens) && Cuts(w, tokens, text, pieces)
    requires k < |tokens| && tokens[k] in {Dirs, All}
    ensures var before := Joined(pieces[..k]); before == [] || before[|before| - 1] == SLASH
  {
    CanonicalAt(w, true, tokens, k);
    if k > 0 {
      assert Takes(w, tokens[k - 1], pieces[k - 1]);
      assert pieces[..k][..k - 1] == pieces[..k - 1];
      if tokens[k - 1] == Dirs {
        DirsStartSegments(w, tokens, text, pieces, k - 1);
      }
    }
  }
}
