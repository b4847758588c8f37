/**
  Git-style globs over bytes: the pattern tokenizer and the matcher that keeps
  a row of reachable positions instead of backtracking.
 */
module Glob {
  import opened Wrappers
  import opened ByteText

  const SLASH: Byte := '/' as int
  const BACKSLASH: Byte := '\\' as int
  const STAR: Byte := '*' as int
  const QUESTION: Byte := '?' as int
  const OPEN: Byte := '[' as int
  const CLOSE: Byte := ']' as int
  const DASH: Byte := '-' as int
  const BANG: Byte := '!' as int
  const CARET: Byte := '^' as int

  datatype Token =
    | Literal(byte: Byte)
    | One
    | Star
    | Dirs
    | All
    | Class(negated: bool, ranges: seq<(Byte, Byte)>)

  /** Matching ignores ASCII case on Windows volumes only. */
  function Fold(windows: bool, byte: Byte): (r: Byte)
    ensures r == SLASH <==> byte == SLASH
  {
    if windows && 'A' as int <= byte <= 'Z' as int then byte + 32 else byte
  }

  // ----- What a glob means

  predicate InRanges(ranges: seq<(Byte, Byte)>, byte: Byte) {
    exists k | 0 <= k < |ranges| :: ranges[k].0 <= byte <= ranges[k].1
  }

  predicate TakesByte(w: bool, token: Token, byte: Byte) {
    match token
    case Literal(expected) => Fold(w, byte) == expected
    case One => byte != SLASH
    case Class(negated, ranges) => byte != SLASH && InRanges(ranges, Fold(w, byte)) != negated
    case _ => false
  }

  /** Whether one token may stand for this piece of text. */
  predicate Takes(w: bool, token: Token, piece: Bytes) {
    match token
    case Star => SLASH !in piece
    case Dirs => piece == [] || piece[|piece| - 1] == SLASH
    case All => true
    case _ => |piece| == 1 && TakesByte(w, token, piece[0])
  }

  function Joined(pieces: seq<Bytes>): Bytes {
    if pieces == [] then [] else Joined(pieces[..|pieces| - 1]) + pieces[|pieces| - 1]
  }

  ghost predicate Cuts(w: bool, tokens: seq<Token>, text: Bytes, pieces: seq<Bytes>) {
    && |pieces| == |tokens|
    && Joined(pieces) == text
    && forall k | 0 <= k < |tokens| :: Takes(w, tokens[k], pieces[k])
  }

  /** A text matches when it can be cut into one piece for each token. */
  ghost predicate Matches(w: bool, tokens: seq<Token>, text: Bytes) {
    exists pieces: seq<Bytes> :: Cuts(w, tokens, text, pieces)
  }

  // ----- Reachable positions

  /** The last token may take what follows some earlier position. */
  lemma LastPiece(w: bool, tokens: seq<Token>, text: Bytes)
    requires tokens != []
    ensures Matches(w, tokens, text) <==>
            exists q | 0 <= q <= |text| ::
              Matches(w, tokens[..|tokens| - 1], text[..q]) && Takes(w, tokens[|tokens| - 1], text[q..])
  {
    var n := |tokens| - 1;
    if pieces :| Cuts(w, tokens, text, pieces) {
      var q := |Joined(pieces[..n])|;
      assert text[..q] == Joined(pieces[..n]) && text[q..] == pieces[n];
      assert Cuts(w, tokens[..n], text[..q], pieces[..n]);
    }
    if q :| 0 <= q <= |text| && Matches(w, tokens[..n], text[..q]) && Takes(w, tokens[n], text[q..]) {
      var pieces :| Cuts(w, tokens[..n], text[..q], pieces);
      var all := pieces + [text[q..]];
      assert all[..n] == pieces;
      assert text == text[..q] + text[q..];
      forall k | 0 <= k < |tokens|
        ensures Takes(w, tokens[k], all[k])
      {
        assert k < n ==> tokens[..n][k] == tokens[k];
      }
      assert Cuts(w, tokens, text, all);
    }
  }

  lemma NoTokens(w: bool, text: Bytes)
    ensures Matches(w, [], text) <==> text == []
  {
    assert Cuts(w, [], [], []);
  }

  /** The first `n` tokens can stand for the first `p` bytes. */
  ghost predicate Reach(w: bool, tokens: seq<Token>, text: Bytes, n: nat, p: nat)
    requires n <= |tokens| && p <= |text|
  {
    Matches(w, tokens[..n], text[..p])
  }

  ghost predicate Row(w: bool, tokens: seq<Token>, text: Bytes, n: nat, row: seq<bool>)
    requires n <= |tokens|
  {
    |row| == |text| + 1 && forall p | 0 <= p <= |text| :: row[p] <==> Reach(w, tokens, text, n, p)
  }

  lemma ReachStep(w: bool, tokens: seq<Token>, text: Bytes, n: nat, p: nat)
    requires n < |tokens| && p <= |text|
    ensures Reach(w, tokens, text, n + 1, p) <==>
            exists q | 0 <= q <= p :: Reach(w, tokens, text, n, q) && Takes(w, tokens[n], text[q..p])
  {
    LastPiece(w, tokens[..n + 1], text[..p]);
    assert tokens[..n + 1][..n] == tokens[..n];
    assert forall q | 0 <= q <= p :: text[..p][..q] == text[..q] && text[..p][q..] == text[q..p];
  }

  lemma StarStep(w: bool, tokens: seq<Token>, text: Bytes, n: nat, p: nat)
    requires n < |tokens| && p <= |text| && tokens[n] == Star
    ensures Reach(w, tokens, text, n + 1, p) <==>
            Reach(w, tokens, text, n, p) || (p > 0 && Reach(w, tokens, text, n + 1, p - 1) && text[p - 1] != SLASH)
  {
    ReachStep(w, tokens, text, n, p);
    assert text[p..p] == [];
    if p > 0 {
      ReachStep(w, tokens, text, n, p - 1);
      assert forall q | 0 <= q < p :: text[q..p] == text[q..p - 1] + [text[p - 1]];
    }
  }

  lemma DirsStep(w: bool, tokens: seq<Token>, text: Bytes, n: nat, p: nat)
    requires n < |tokens| && p <= |text| && tokens[n] == Dirs
    ensures Reach(w, tokens, text, n + 1, p) <==>
            Reach(w, tokens, text, n, p)
            || (p > 0 && text[p - 1] == SLASH && exists q | 0 <= q < p :: Reach(w, tokens, text, n, q))
  {
    ReachStep(w, tokens, text, n, p);
    assert text[p..p] == [];
    assert forall q | 0 <= q < p :: text[q..p][|text[q..p]| - 1] == text[p - 1];
  }

  lemma ByteStep(w: bool, tokens: seq<Token>, text: Bytes, n: nat, p: nat)
    requires n < |tokens| && p <= |text| && tokens[n] !in {Star, Dirs, All}
    ensures Reach(w, tokens, text, n + 1, p) <==>
            p > 0 && Reach(w, tokens, text, n, p - 1) && TakesByte(w, tokens[n], text[p - 1])
  {
    ReachStep(w, tokens, text, n, p);
    if p > 0 {
      assert text[p - 1..p] == [text[p - 1]];
    }
  }

  /** Everything after a final `All` is taken. */
  lemma AllStep(w: bool, tokens: seq<Token>, text: Bytes, n: nat, row: seq<bool>)
    requires n < |tokens| && tokens[n] == All && Row(w, tokens, text, n, row)
    ensures Matches(w, tokens[..n + 1], text) <==> true in row
  {
    hide Matches;
    ReachStep(w, tokens, text, n, |text|);
    assert text[..|text|] == text;
    if q :| 0 <= q <= |text| && Reach(w, tokens, text, n, q) {
      assert row[q];
    }
    if true in row {
      var q :| 0 <= q <= |text| && row[q];
      assert Reach(w, tokens, text, n, q) && Takes(w, tokens[n], text[q..|text|]);
    }
  }

  lemma FirstRow(w: bool, tokens: seq<Token>, text: Bytes)
    ensures Row(w, tokens, text, 0, seq(|text| + 1, p => p == 0))
  {
    forall p | 0 <= p <= |text|
      ensures Reach(w, tokens, text, 0, p) <==> p == 0
    {
      NoTokens(w, text[..p]);
    }
  }

  method StarRow(w: bool, tokens: seq<Token>, text: Bytes, n: nat, current: array<bool>, next: array<bool>)
    requires n < |tokens| && tokens[n] == Star && current != next
    requires current.Length == next.Length == |text| + 1
    requires Row(w, tokens, text, n, current[..])
    modifies next
    ensures Row(w, tokens, text, n + 1, next[..])
  {
    hide Reach, Takes;
    StarStep(w, tokens, text, n, 0);
    next[0] := current[0];
    for index := 0 to |text|
      invariant Row(w, tokens, text, n, current[..])
      invariant forall p | 0 <= p <= index :: next[p] <==> Reach(w, tokens, text, n + 1, p)
    {
      StarStep(w, tokens, text, n, index + 1);
      next[index + 1] := current[..][index + 1] || (next[index] && text[index] != SLASH);
    }
  }

  method DirsRow(w: bool, tokens: seq<Token>, text: Bytes, n: nat, current: array<bool>, next: array<bool>)
    requires n < |tokens| && tokens[n] == Dirs && current != next
    requires current.Length == next.Length == |text| + 1
    requires Row(w, tokens, text, n, current[..])
    modifies next
    ensures Row(w, tokens, text, n + 1, next[..])
  {
    hide Reach, Takes;
    ghost var row := current[..];
    forall p | 0 <= p <= |text| { next[p] := current[p]; }
    var active := false;
    DirsStep(w, tokens, text, n, 0);
    for index := 0 to |text|
      invariant current[..] == row
      invariant active <==> exists q | 0 <= q < index :: Reach(w, tokens, text, n, q)
      invariant forall p | 0 <= p <= index :: next[p] <==> Reach(w, tokens, text, n + 1, p)
      invariant forall p | index < p <= |text| :: next[p] == row[p]
    {
      active := active || current[index];
      DirsStep(w, tokens, text, n, index + 1);
      assert row[index] <==> Reach(w, tokens, text, n, index);
      if active && text[index] == SLASH {
        next[index + 1] := true;
      }
    }
  }

  method ByteRow(w: bool, tokens: seq<Token>, text: Bytes, n: nat, current: array<bool>, next: array<bool>)
    requires n < |tokens| && tokens[n] !in {Star, Dirs, All} && current != next
    requires current.Length == next.Length == |text| + 1
    requires Row(w, tokens, text, n, current[..]) && forall p | 0 <= p <= |text| :: !next[p]
    modifies next
    ensures Row(w, tokens, text, n + 1, next[..])
  {
    hide Reach, TakesByte;
    ghost var row := current[..];
    ByteStep(w, tokens, text, n, 0);
    for index := 0 to |text|
      invariant current[..] == row
      invariant forall p | 0 <= p <= index :: next[p] <==> Reach(w, tokens, text, n + 1, p)
      invariant forall p | index < p <= |text| :: !next[p]
    {
      ByteStep(w, tokens, text, n, index + 1);
      assert row[index] <==> Reach(w, tokens, text, n, index);
      if current[index] {
        next[index + 1] := TakesByte(w, tokens[n], text[index]);
      }
    }
  }

  /** The tokens up to the first `All`, which already takes all that remains. */
  function ThroughAll(tokens: seq<Token>): (r: seq<Token>)
    ensures r <= tokens
  {
    if tokens == [] then []
    else if tokens[0] == All then [All]
    else
      assert tokens == [tokens[0]] + tokens[1..];
      [tokens[0]] + ThroughAll(tokens[1..])
  }

  lemma {:induction false} FirstAll(tokens: seq<Token>, n: nat)
    requires n <= |tokens| && forall k | 0 <= k < n :: tokens[k] != All
    requires n == |tokens| || tokens[n] == All
    ensures ThroughAll(tokens) == if n == |tokens| then tokens else tokens[..n + 1]
  {
    if tokens != [] && n > 0 {
      FirstAll(tokens[1..], n - 1);
      assert tokens == [tokens[0]] + tokens[1..];
    }
  }

  /** The all-literal fast path compares byte by byte. */
  lemma {:induction false} LiteralsMatch(w: bool, tokens: seq<Token>, text: Bytes)
    requires forall t | t in tokens :: t.Literal?
    ensures Matches(w, tokens, text) <==>
            |tokens| == |text| && forall k | 0 <= k < |tokens| :: TakesByte(w, tokens[k], text[k])
  {
    hide Matches, TakesByte;
    if tokens == [] {
      NoTokens(w, text);
    } else {
      var n, p := |tokens| - 1, |text|;
      assert tokens[n] in tokens;
      assert forall t | t in tokens[..n] :: t in tokens;
      assert tokens[..|tokens|] == tokens && text[..p] == text;
      ByteStep(w, tokens, text, n, p);
      if p > 0 {
        LiteralsMatch(w, tokens[..n], text[..p - 1]);
        assert forall k | 0 <= k < n && k < p - 1 :: tokens[..n][k] == tokens[k] && text[..p - 1][k] == text[k];
      }
    }
  }

  method MatchTokens(w: bool, tokens: seq<Token>, text: Bytes) returns (matched: bool)
    ensures matched <==> Matches(w, ThroughAll(tokens), text)
  {
    hide Matches, TakesByte, Takes;
    if forall t | t in tokens :: t.Literal? {
      assert forall k | 0 <= k < |tokens| :: tokens[k] in tokens;
      FirstAll(tokens, |tokens|);
      LiteralsMatch(w, tokens, text);
      return |tokens| == |text| && forall k | 0 <= k < |tokens| :: TakesByte(w, tokens[k], text[k]);
    }
    var current := new bool[|text| + 1](p => p == 0);
    var next := new bool[|text| + 1](_ => false);
    FirstRow(w, tokens, text);
    assert current[..] == seq(|text| + 1, p => p == 0);
    for n := 0 to |tokens|
      invariant current != next && fresh(current) && fresh(next)
      invariant current.Length == next.Length == |text| + 1
      invariant Row(w, tokens, text, n, current[..])
      invariant forall k | 0 <= k < n :: tokens[k] != All
    {
      ghost var row := current[..];
      forall p | 0 <= p <= |text| { next[p] := false; }
      assert current[..] == row;
      match tokens[n] {
        case All =>
          FirstAll(tokens, n);
          AllStep(w, tokens, text, n, row);
          assert current[..] == row;
          return true in current[..];
        case Star => StarRow(w, tokens, text, n, current, next);
        case Dirs => DirsRow(w, tokens, text, n, current, next);
        case _ => ByteRow(w, tokens, text, n, current, next);
      }
      current, next := next, current;
    }
    FirstAll(tokens, |tokens|);
    assert tokens[..|tokens|] == tokens && text[..|text|] == text;
    return current[..][|text|];
  }
}
