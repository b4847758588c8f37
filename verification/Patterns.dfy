/**
  What a glob means, read straight from its bytes: the reference the tokens and
  the matcher are proved against.
 */
module Patterns {
  import opened ByteText
  import opened Glob
  import opened Tokens
  import opened Wrappers

  // ----- Letters

  /** On Windows volumes capital letters count as small ones. */
  function Lower(windows: bool, b: Byte): Byte { if windows && 65 <= b <= 90 then b + 32 else b }

  predicate Same(windows: bool, a: Byte, b: Byte) { Lower(windows, a) == Lower(windows, b) }

  // ----- Bracket expressions

  /** One entry of a bracket expression, each end with or without a backslash. */
  datatype Item =
    | Single(low: Byte, lowEscaped: bool)
    | Range(low: Byte, lowEscaped: bool, high: Byte, highEscaped: bool)

  function Written(b: Byte, escaped: bool): Bytes { if escaped then [92, b] else [b] }

  function ItemText(item: Item): (text: Bytes)
    ensures text != []
  {
    match item
    case Single(low, lowEscaped) => Written(low, lowEscaped)
    case Range(low, lowEscaped, high, highEscaped) => Written(low, lowEscaped) + [45] + Written(high, highEscaped)
  }

  function ItemsText(items: seq<Item>): Bytes {
    if items == [] then [] else ItemText(items[0]) + ItemsText(items[1..])
  }

  /** The entry can be told from what follows it: a closing bracket stands for
      itself only in the first place, and a dash behind a byte makes a range
      unless the closing bracket is next. */
  predicate Readable(item: Item, first: bool, rest: Bytes) {
    && (!item.lowEscaped ==> item.low != 92 && (item.low == 93 ==> first))
    && match item
       case Single(_, _) => !(|rest| > 1 && rest[0] == 45 && rest[1] != 93)
       case Range(_, _, high, highEscaped) => !highEscaped ==> high != 92 && high != 93
  }

  predicate AllReadable(items: seq<Item>, first: bool, rest: Bytes) {
    items == []
    || (Readable(items[0], first, ItemsText(items[1..]) + rest) && AllReadable(items[1..], false, rest))
  }

  function High(item: Item): Byte { match item case Single(low, _) => low case Range(_, _, high, _) => high }

  /** The byte lies in one of the ranges. */
  predicate InItems(windows: bool, items: seq<Item>, b: Byte) {
    exists k | 0 <= k < |items| ::
      Lower(windows, items[k].low) <= Lower(windows, b) <= Lower(windows, High(items[k]))
  }

  /** A bracket expression: negated by `!` or `^`, then entries, then its end. */
  predicate IsClass(p: Bytes, sign: Bytes, items: seq<Item>, rest: Bytes) {
    && p == [91] + (sign + (ItemsText(items) + ([93] + rest)))
    && items != [] && AllReadable(items, true, [93] + rest)
    && if sign == [] then ItemText(items[0])[0] !in {33, 94} else sign in {[33], [94]}
  }

  function RangesOf(windows: bool, items: seq<Item>): (ranges: seq<(Byte, Byte)>)
    ensures |ranges| == |items|
    ensures forall k | 0 <= k < |items| ::
              ranges[k] == (Lower(windows, items[k].low), Lower(windows, High(items[k])))
  {
    seq(|items|, k requires 0 <= k < |items| => (Lower(windows, items[k].low), Lower(windows, High(items[k]))))
  }

  lemma ItemIsRead(item: Item, first: bool, rest: Bytes)
    requires Readable(item, first, rest) && rest != []
    ensures OneRange(ItemText(item) + rest) == Some((item.low, High(item), |ItemText(item)|))
    ensures ItemText(item)[0] == 93 ==> first
  {
    var s := ItemText(item) + rest;
    match item {
      case Single(low, lowEscaped) =>
        assert s[if lowEscaped then 2 else 1..] == rest;
      case Range(low, lowEscaped, high, highEscaped) =>
        var a := if lowEscaped then 2 else 1;
        assert s[a] == 45 && s[a - 1] == low;
        assert s[a + 1] == if highEscaped then 92 else high;
        assert highEscaped ==> s[a + 2] == high;
    }
  }

  /** Whatever entries a bracket expression is written with, it is read as their
      ranges. */
  lemma {:induction false} ItemsAreRead(w: bool, items: seq<Item>, first: bool, rest: Bytes)
    requires AllReadable(items, first, [93] + rest) && (first ==> items != [])
    ensures BracketFrom(w, ItemsText(items) + ([93] + rest), first) ==
            Some(Bracket(RangesOf(w, items), |ItemsText(items)| + 1))
    decreases |items|
  {
    hide OneRange, BracketFrom, Readable, ItemText, RangesOf, Lower;
    var end := [93] + rest;
    if items == [] {
      NothingRead(w, rest);
    } else {
      var tail := ItemsText(items[1..]) + end;
      ItemIsRead(items[0], first, tail);
      ItemsAreRead(w, items[1..], false, rest);
      MoreText(items, end);
      OneMoreItem(w, items[0].low, High(items[0]), ItemText(items[0]), tail, first);
      MoreRanges(w, items);
    }
  }

  lemma MoreText(items: seq<Item>, end: Bytes)
    requires items != []
    ensures ItemsText(items) + end == ItemText(items[0]) + (ItemsText(items[1..]) + end)
    ensures |ItemsText(items)| == |ItemText(items[0])| + |ItemsText(items[1..])|
  {
    hide ItemText;
    var a, b := ItemText(items[0]), ItemsText(items[1..]);
    Associate(a, b, end);
  }

  lemma Associate(a: Bytes, b: Bytes, c: Bytes)
    ensures (a + b) + c == a + (b + c)
  {
  }

  lemma MoreRanges(w: bool, items: seq<Item>)
    requires items != []
    ensures RangesOf(w, items) ==
            [(Lower(w, items[0].low), Lower(w, High(items[0])))] + RangesOf(w, items[1..])
  {
    hide Lower, High;
  }

  lemma NothingRead(w: bool, rest: Bytes)
    ensures BracketFrom(w, ItemsText([]) + ([93] + rest), false) == Some(Bracket(RangesOf(w, []), |ItemsText([])| + 1))
  {
    assert [] + ([93] + rest) == [93] + rest;
    assert RangesOf(w, []) == [];
  }

  lemma OneMoreItem(w: bool, low: Byte, high: Byte, text: Bytes, tail: Bytes, first: bool)
    requires text != [] && (text[0] == 93 ==> first)
    requires OneRange(text + tail) == Some((low, high, |text|)) && BracketFrom(w, tail, false).Some?
    ensures var rest := BracketFrom(w, tail, false).value;
            BracketFrom(w, text + tail, first) ==
            Some(Bracket([(Lower(w, low), Lower(w, high))] + rest.ranges, |text| + rest.used))
  {
    hide OneRange, FoldedRanges;
    assert (text + tail)[|text|..] == tail;
  }

  /** And nothing else is read as one. */
  lemma ItemOf(s: Bytes, first: bool) returns (item: Item)
    requires OneRange(s).Some? && (s[0] == 93 ==> first)
    ensures var (low, high, n) := OneRange(s).value;
            && item.low == low && High(item) == high && ItemText(item) == s[..n] && Readable(item, first, s[n..])
  {
    var (low, high, n) := OneRange(s).value;
    var lowEscaped := s[0] == 92;
    var a := if lowEscaped then 2 else 1;
    if a + 1 < |s| && s[a] == 45 && s[a + 1] != 93 {
      item := Range(low, lowEscaped, high, s[a + 1] == 92);
      assert s[..n] == ItemText(item);
    } else {
      item := Single(low, lowEscaped);
      assert s[..n] == ItemText(item);
      assert |s[n..]| > 1 ==> s[n..][0] == s[a] && s[n..][1] == s[a + 1];
    }
  }

  lemma SomeRange(w: bool, s: Bytes, first: bool)
    requires BracketFrom(w, s, first).Some?
    ensures s != []
    ensures s[0] != 93 || first ==> OneRange(s).Some? && BracketFrom(w, s[OneRange(s).value.2..], false).Some?
  {
    hide OneRange, FoldedRanges;
  }

  lemma {:induction false} ItemsOf(w: bool, s: Bytes, first: bool) returns (items: seq<Item>, rest: Bytes)
    requires BracketFrom(w, s, first).Some?
    ensures s == ItemsText(items) + ([93] + rest) && AllReadable(items, first, [93] + rest) && (first ==> items != [])
    ensures BracketFrom(w, s, first).value == Bracket(RangesOf(w, items), |ItemsText(items)| + 1)
    decreases |s|
  {
    hide OneRange, Readable, ItemText, FoldedRanges, RangesOf, BracketFrom;
    SomeRange(w, s, first);
    if s[0] == 93 && !first {
      items, rest := [], s[1..];
      NothingRead(w, rest);
      assert s == [] + ([93] + rest);
    } else {
      var n := OneRange(s).value.2;
      var item := ItemOf(s, first);
      var more;
      more, rest := ItemsOf(w, s[n..], false);
      items := [item] + more;
      assert s == s[..n] + s[n..] && items[1..] == more;
      MoreText(items, [93] + rest);
      ItemsAreRead(w, items, first, rest);
    }
  }

  // ----- The meaning of a pattern

  predicate AllStars(p: Bytes, n: nat)
    requires n <= |p|
  {
    (forall k | 0 <= k < n :: p[k] == 42) && (n < |p| ==> p[n] != 42)
  }

  /** The pattern describes the text; `start` says that a path segment starts
      with it. */
  ghost predicate Describes(w: bool, start: bool, p: Bytes, text: Bytes)
    decreases |p|
  {
    if p == [] then text == []
    else if p[0] == 92 && |p| > 1 then
      // A backslash makes the next byte stand for itself.
      text != [] && Same(w, p[1], text[0]) && Describes(w, p[1] == 47, p[2..], text[1..])
    else if p[0] == 63 then
      // A question mark is any byte but a slash.
      text != [] && text[0] != 47 && Describes(w, false, p[1..], text[1..])
    else if p[0] == 42 then
      exists n | 1 <= n <= |p| ::
        AllStars(p, n) &&
        if n > 1 && start && n == |p| then
          // Two stars that are a last segment are anything.
          true
        else if n > 1 && start && p[n] == 47 then
          // Two stars that are an inner segment are whole directories.
          exists k | 0 <= k <= |text| :: (k > 0 ==> text[k - 1] == 47) && Describes(w, true, p[n + 1..], text[k..])
        else
          // Any other stars are anything without a slash.
          exists k | 0 <= k <= |text| :: 47 !in text[..k] && Describes(w, false, p[n..], text[k..])
    else if p[0] == 91 && exists sign, items, rest :: IsClass(p, sign, items, rest) then
      exists sign, items, rest ::
        && IsClass(p, sign, items, rest) && |rest| < |p|
        && text != [] && text[0] != 47 && (InItems(w, items, text[0]) <==> sign == [])
        && Describes(w, false, rest, text[1..])
    else
      // Any other byte, and a bracket that does not close, stands for itself.
      text != [] && Same(w, p[0], text[0]) && Describes(w, p[0] == 47, p[1..], text[1..])
  }

  // ----- The tokens mean the same

  lemma {:induction false} JoinedFirst(piece: Bytes, pieces: seq<Bytes>)
    ensures Joined([piece] + pieces) == piece + Joined(pieces)
    decreases |pieces|
  {
    var all := [piece] + pieces;
    if pieces == [] {
      assert all[..0] == [] && Joined([]) == [];
    } else {
      var n := |pieces| - 1;
      JoinedFirst(piece, pieces[..n]);
      assert all[..n + 1] == [piece] + pieces[..n];
    }
  }

  lemma PiecesSplit(w: bool, token: Token, tokens: seq<Token>, text: Bytes, pieces: seq<Bytes>)
    requires Cuts(w, [token] + tokens, text, pieces)
    ensures var first := pieces[0];
            |first| <= |text| && text[..|first|] == first && Takes(w, token, first)
            && Cuts(w, tokens, text[|first|..], pieces[1..])
  {
    hide Takes, Joined;
    var all := [token] + tokens;
    var first, rest := pieces[0], pieces[1..];
    JoinedFirst(first, rest);
    assert pieces == [first] + rest;
    assert text[|first|..] == Joined(rest);
    assert Takes(w, all[0], pieces[0]);
    forall k | 0 <= k < |tokens|
      ensures Takes(w, tokens[k], rest[k])
    {
      assert all[k + 1] == tokens[k] && pieces[k + 1] == rest[k];
    }
  }

  lemma PiecesJoin(w: bool, token: Token, tokens: seq<Token>, text: Bytes, first: Bytes, rest: seq<Bytes>)
    requires Takes(w, token, first) && Cuts(w, tokens, text, rest)
    ensures Cuts(w, [token] + tokens, first + text, [first] + rest)
  {
    hide Takes, Joined;
    var all, pieces := [token] + tokens, [first] + rest;
    JoinedFirst(first, rest);
    forall i | 0 <= i < |all|
      ensures Takes(w, all[i], pieces[i])
    {
      assert i > 0 ==> all[i] == tokens[i - 1] && pieces[i] == rest[i - 1];
    }
  }

  /** The first token may take what comes before some later position. */
  lemma FirstPiece(w: bool, token: Token, tokens: seq<Token>, text: Bytes)
    ensures Matches(w, [token] + tokens, text) <==>
            exists k | 0 <= k <= |text| :: Takes(w, token, text[..k]) && Matches(w, tokens, text[k..])
  {
    hide Takes, Cuts;
    var all := [token] + tokens;
    if pieces :| Cuts(w, all, text, pieces) {
      NonEmptyCut(w, all, text, pieces);
      PiecesSplit(w, token, tokens, text, pieces);
    }
    if k :| 0 <= k <= |text| && Takes(w, token, text[..k]) && Matches(w, tokens, text[k..]) {
      var rest :| Cuts(w, tokens, text[k..], rest);
      PiecesJoin(w, token, tokens, text[k..], text[..k], rest);
      assert text == text[..k] + text[k..];
    }
  }

  lemma NonEmptyCut(w: bool, tokens: seq<Token>, text: Bytes, pieces: seq<Bytes>)
    requires Cuts(w, tokens, text, pieces)
    ensures |pieces| == |tokens|
  {
    hide Takes, Joined;
  }

  /** A token for one byte takes the first. */
  lemma FirstByte(w: bool, token: Token, tokens: seq<Token>, text: Bytes)
    requires token !in {Star, Dirs, All}
    ensures Matches(w, [token] + tokens, text) <==>
            text != [] && TakesByte(w, token, text[0]) && Matches(w, tokens, text[1..])
  {
    hide TakesByte, Matches;
    FirstPiece(w, token, tokens, text);
    if text != [] {
      assert text[..1] == [text[0]] && text[..1][0] == text[0];
    }
    assert forall k | 0 <= k <= |text| && Takes(w, token, text[..k]) :: k == 1;
  }

  lemma TokensFirst(w: bool, start: bool, p: Bytes)
    requires p != []
    ensures var (token, n) := Next(w, start, p);
            TokensFrom(w, start, p) == [token] + TokensFrom(w, p[n - 1] == 47, p[n..])
  {
    hide Next;
  }

  /** A byte that stands for itself. */
  lemma LiteralMeans(w: bool, a: Byte, tokens: seq<Token>, text: Bytes)
    ensures Matches(w, [Literal(Fold(w, a))] + tokens, text) <==>
            text != [] && Same(w, a, text[0]) && Matches(w, tokens, text[1..])
  {
    hide Matches;
    FirstByte(w, Literal(Fold(w, a)), tokens, text);
  }

  lemma OneMeans(w: bool, tokens: seq<Token>, text: Bytes)
    ensures Matches(w, [One] + tokens, text) <==> text != [] && text[0] != 47 && Matches(w, tokens, text[1..])
  {
    hide Matches;
    FirstByte(w, One, tokens, text);
  }

  lemma ClassMeans(w: bool, negated: bool, items: seq<Item>, tokens: seq<Token>, text: Bytes)
    ensures Matches(w, [Class(negated, RangesOf(w, items))] + tokens, text) <==>
            && text != [] && text[0] != 47 && (InItems(w, items, text[0]) <==> !negated)
            && Matches(w, tokens, text[1..])
  {
    hide Matches, RangesOf, InItems, InRanges;
    FirstByte(w, Class(negated, RangesOf(w, items)), tokens, text);
    if text != [] {
      RangesDecide(w, items, text[0]);
      assert Fold(w, text[0]) == Lower(w, text[0]);
    }
  }

  lemma StarMeans(w: bool, tokens: seq<Token>, text: Bytes)
    ensures Matches(w, [Star] + tokens, text) <==>
            exists k | 0 <= k <= |text| :: 47 !in text[..k] && Matches(w, tokens, text[k..])
  {
    hide Matches;
    FirstPiece(w, Star, tokens, text);
  }

  lemma DirsMeans(w: bool, tokens: seq<Token>, text: Bytes)
    ensures Matches(w, [Dirs] + tokens, text) <==>
            exists k | 0 <= k <= |text| :: (k > 0 ==> text[k - 1] == 47) && Matches(w, tokens, text[k..])
  {
    hide Matches;
    FirstPiece(w, Dirs, tokens, text);
    assert forall k | 0 < k <= |text| :: text[..k][|text[..k]| - 1] == text[k - 1];
  }

  lemma AllMeans(w: bool, text: Bytes)
    ensures Matches(w, [All], text)
  {
    FirstPiece(w, All, [], text);
    assert [All] + [] == [All];
    Glob.NoTokens(w, text[|text|..]);
    hide Matches;
    assert Takes(w, All, text[..|text|]);
  }

  /** Which stars a run is, and where it ends. */
  lemma StarsMean(w: bool, start: bool, p: Bytes) returns (n: nat)
    requires p != [] && p[0] == 42
    ensures 1 <= n <= |p| && AllStars(p, n) && forall m | 1 <= m <= |p| && AllStars(p, m) :: m == n
    ensures Next(w, start, p) ==
            if n > 1 && start && n == |p| then (All, n)
            else if n > 1 && start && p[n] == 47 then (Dirs, n + 1)
            else (Star, n)
  {
    n := 1 + Stars(p[1..]);
    assert forall k | 0 < k < |p| :: p[k] == p[1..][k - 1];
    assert AllStars(p, n);
  }

  lemma SignIsRead(w: bool, sign: Bytes, inner: Bytes)
    requires inner != [] && if sign == [] then inner[0] !in {33, 94} else sign in {[33], [94]}
    ensures Negates(sign + inner) <==> sign != []
    ensures BracketOf(w, sign + inner) == BracketFrom(w, inner, true)
  {
    hide BracketFrom;
    assert (sign + inner)[|sign|..] == inner;
    assert sign == [] ==> sign + inner == inner;
  }

  lemma ClassIsNext(w: bool, start: bool, p: Bytes)
    requires p != [] && p[0] == 91
    ensures Next(w, start, p) ==
            match BracketOf(w, p[1..])
            case Some(b) => (Class(Negates(p[1..]), b.ranges), b.used + if Negates(p[1..]) then 2 else 1)
            case None => (Literal(91), 1)
  {
    hide BracketFrom;
  }

  /** How a bracket expression is read. */
  lemma ClassIsRead(w: bool, start: bool, p: Bytes, sign: Bytes, items: seq<Item>, rest: Bytes)
    requires IsClass(p, sign, items, rest)
    ensures |rest| < |p| && p[0] == 91 && p[|p| - |rest|..] == rest && p[|p| - |rest| - 1] == 93
    ensures Next(w, start, p) == (Class(sign != [], RangesOf(w, items)), |p| - |rest|)
  {
    hide ItemsText, ItemText, RangesOf, AllReadable, Next, BracketFrom, BracketOf, Negates;
    var text := ItemsText(items);
    ItemsAreRead(w, items, true, rest);
    BracketParts(sign, text, rest);
    ItemsFirst(items, [93] + rest);
    SignIsRead(w, sign, text + ([93] + rest));
    ClassIsNext(w, start, p);
  }

  lemma ItemsFirst(items: seq<Item>, rest: Bytes)
    requires items != []
    ensures ItemsText(items) + rest != [] && (ItemsText(items) + rest)[0] == ItemText(items[0])[0]
  {
    hide ItemText;
  }

  lemma BracketParts(sign: Bytes, text: Bytes, rest: Bytes)
    ensures var p := [91] + (sign + (text + ([93] + rest)));
            && |p| == |sign| + |text| + |rest| + 2 && p[0] == 91 && p[1..] == sign + (text + ([93] + rest))
            && p[|p| - |rest|..] == rest && p[|p| - |rest| - 1] == 93
    ensures (sign + (text + ([93] + rest)))[|sign|..] == text + ([93] + rest)
  {
    var p := [91] + (sign + (text + ([93] + rest)));
    assert p == ([91] + sign + text + [93]) + rest;
  }

  lemma ClassOf(w: bool, start: bool, p: Bytes) returns (sign: Bytes, items: seq<Item>, rest: Bytes)
    requires p != [] && p[0] == 91 && BracketOf(w, p[1..]).Some?
    ensures IsClass(p, sign, items, rest)
  {
    hide BracketFrom, AllReadable, ItemText, ItemsText, RangesOf;
    var s := p[1..];
    sign := if Negates(s) then [s[0]] else [];
    var inner := if Negates(s) then s[1..] else s;
    items, rest := ItemsOf(w, inner, true);
    assert p == [91] + (sign + inner);
    ItemsFirst(items, [93] + rest);
  }

  /** The tokens of this rest of a pattern mean what it describes. */
  ghost predicate Means(w: bool, start: bool, p: Bytes) {
    forall text :: Matches(w, TokensFrom(w, start, p), text) <==> Describes(w, start, p, text)
  }

  lemma NothingMeans(w: bool, start: bool)
    ensures Means(w, start, [])
  {
    hide Matches;
    forall text ensures Matches(w, TokensFrom(w, start, []), text) <==> Describes(w, start, [], text) {
      Glob.NoTokens(w, text);
    }
  }

  lemma EscapedMeans(w: bool, start: bool, p: Bytes)
    requires |p| > 1 && p[0] == 92 && Means(w, p[1] == 47, p[2..])
    ensures Means(w, start, p)
  {
    hide Matches, TokensFrom;
    TokensFirst(w, start, p);
    forall text ensures Matches(w, TokensFrom(w, start, p), text) <==> Describes(w, start, p, text) {
      LiteralMeans(w, p[1], TokensFrom(w, p[1] == 47, p[2..]), text);
    }
  }

  lemma QuestionMeans(w: bool, start: bool, p: Bytes)
    requires p != [] && p[0] == 63 && Means(w, false, p[1..])
    ensures Means(w, start, p)
  {
    hide Matches, TokensFrom;
    TokensFirst(w, start, p);
    forall text ensures Matches(w, TokensFrom(w, start, p), text) <==> Describes(w, start, p, text) {
      OneMeans(w, TokensFrom(w, false, p[1..]), text);
    }
  }

  /** What the stars up to `n` describe. */
  lemma StarsDescribe(w: bool, start: bool, p: Bytes, n: nat, text: Bytes)
    requires p != [] && p[0] == 42 && 1 <= n <= |p| && AllStars(p, n)
    requires forall m | 1 <= m <= |p| && AllStars(p, m) :: m == n
    ensures Describes(w, start, p, text) <==>
            if n > 1 && start && n == |p| then true
            else if n > 1 && start && p[n] == 47 then
              exists k | 0 <= k <= |text| :: (k > 0 ==> text[k - 1] == 47) && Describes(w, true, p[n + 1..], text[k..])
            else
              exists k | 0 <= k <= |text| :: 47 !in text[..k] && Describes(w, false, p[n..], text[k..])
  {
    hide AllStars, IsClass;
  }

  lemma LastStarsMean(w: bool, p: Bytes, text: Bytes)
    requires p != [] && Next(w, true, p) == (All, |p|)
    ensures Matches(w, TokensFrom(w, true, p), text)
  {
    hide Matches, TokensFrom, Next;
    TokensFirst(w, true, p);
    assert p[|p|..] == [];
    NoTokensLeft(w, p[|p| - 1] == 47);
    assert [All] + [] == [All];
    AllMeans(w, text);
  }

  lemma InnerStarsMean(w: bool, p: Bytes, n: nat, text: Bytes)
    requires n < |p| && p[n] == 47 && Next(w, true, p) == (Dirs, n + 1) && Means(w, true, p[n + 1..])
    ensures Matches(w, TokensFrom(w, true, p), text) <==>
            exists k | 0 <= k <= |text| :: (k > 0 ==> text[k - 1] == 47) && Describes(w, true, p[n + 1..], text[k..])
  {
    hide Matches, TokensFrom, Next, Describes;
    TokensFirst(w, true, p);
    DirsMeans(w, TokensFrom(w, true, p[n + 1..]), text);
  }

  lemma OtherStarsMean(w: bool, start: bool, p: Bytes, n: nat, text: Bytes)
    requires 0 < n <= |p| && p[n - 1] == 42 && Next(w, start, p) == (Star, n) && Means(w, false, p[n..])
    ensures Matches(w, TokensFrom(w, start, p), text) <==>
            exists k | 0 <= k <= |text| :: 47 !in text[..k] && Describes(w, false, p[n..], text[k..])
  {
    hide Matches, TokensFrom, Next, Describes;
    TokensFirst(w, start, p);
    StarMeans(w, TokensFrom(w, false, p[n..]), text);
  }

  lemma StarredMeans(w: bool, start: bool, p: Bytes)
    requires p != [] && p[0] == 42
    requires forall q: Bytes | |q| < |p| :: Means(w, true, q) && Means(w, false, q)
    ensures Means(w, start, p)
  {
    hide Matches, TokensFrom, Next;
    var n := StarsMean(w, start, p);
    assert n > 1 ==> p[n - 1] == 42;
    forall text ensures Matches(w, TokensFrom(w, start, p), text) <==> Describes(w, start, p, text) {
      StarsDescribe(w, start, p, n, text);
      hide AllStars, Describes, Means;
      if n > 1 && start && n == |p| {
        LastStarsMean(w, p, text);
      } else if n > 1 && start && p[n] == 47 {
        InnerStarsMean(w, p, n, text);
      } else {
        OtherStarsMean(w, start, p, n, text);
      }
    }
  }

  lemma BracketMeans(w: bool, start: bool, p: Bytes, sign: Bytes, items: seq<Item>, rest: Bytes)
    requires IsClass(p, sign, items, rest) && |rest| < |p| && Means(w, false, rest)
    ensures Means(w, start, p)
  {
    hide Matches, TokensFrom, Next, IsClass, InItems;
    ClassIsRead(w, start, p, sign, items, rest);
    TokensFirst(w, start, p);
    forall text ensures Matches(w, TokensFrom(w, start, p), text) <==> Describes(w, start, p, text) {
      ClassMeans(w, sign != [], items, TokensFrom(w, false, rest), text);
      forall sign', items', rest' | IsClass(p, sign', items', rest')
        ensures rest' == rest && (sign' == [] <==> sign == [])
        ensures text != [] ==> (InItems(w, items', text[0]) <==> InItems(w, items, text[0]))
      {
        ClassIsRead(w, start, p, sign', items', rest');
        SameRanges(w, items, items');
      }
    }
  }

  lemma SameRanges(w: bool, items: seq<Item>, others: seq<Item>)
    requires RangesOf(w, items) == RangesOf(w, others)
    ensures forall b :: InItems(w, items, b) <==> InItems(w, others, b)
  {
    forall b ensures InItems(w, items, b) <==> InItems(w, others, b) {
      var ranges := RangesOf(w, items);
      assert InItems(w, items, b) <==> InRanges(ranges, Lower(w, b)) by {
        RangesDecide(w, items, b);
      }
      RangesDecide(w, others, b);
    }
  }

  lemma RangesDecide(w: bool, items: seq<Item>, b: Byte)
    ensures InItems(w, items, b) <==> InRanges(RangesOf(w, items), Lower(w, b))
  {
    var ranges := RangesOf(w, items);
    if InItems(w, items, b) {
      var k :| 0 <= k < |items| && Lower(w, items[k].low) <= Lower(w, b) <= Lower(w, High(items[k]));
      assert ranges[k].0 <= Lower(w, b) <= ranges[k].1;
    }
    if InRanges(ranges, Lower(w, b)) {
      var k :| 0 <= k < |ranges| && ranges[k].0 <= Lower(w, b) <= ranges[k].1;
      assert Lower(w, items[k].low) <= Lower(w, b) <= Lower(w, High(items[k]));
    }
  }

  /** A byte is on its own: no wildcard, no escape, no bracket that closes. */
  ghost predicate Alone(p: Bytes)
    requires p != []
  {
    && !(p[0] == 92 && |p| > 1) && p[0] != 63 && p[0] != 42
    && !(p[0] == 91 && exists sign, items, rest :: IsClass(p, sign, items, rest))
  }

  lemma AloneIsRead(w: bool, start: bool, p: Bytes)
    requires p != [] && Alone(p)
    ensures Next(w, start, p) == (Literal(Fold(w, p[0])), 1)
  {
    hide IsClass, BracketOf;
    if p[0] == 91 && BracketOf(w, p[1..]).Some? {
      var sign, items, rest := ClassOf(w, start, p);
      assert false;
    }
  }

  lemma AloneMeans(w: bool, start: bool, p: Bytes)
    requires p != [] && Alone(p) && Means(w, p[0] == 47, p[1..])
    ensures Means(w, start, p)
  {
    hide Matches, TokensFrom, Next, IsClass;
    AloneIsRead(w, start, p);
    TokensFirst(w, start, p);
    forall text ensures Matches(w, TokensFrom(w, start, p), text) <==> Describes(w, start, p, text) {
      LiteralMeans(w, p[0], TokensFrom(w, p[0] == 47, p[1..]), text);
    }
  }

  /** The tokens of every pattern match exactly the texts it describes. */
  lemma {:induction false} TokensMean(w: bool, start: bool, p: Bytes)
    ensures forall text :: Matches(w, TokensFrom(w, start, p), text) <==> Describes(w, start, p, text)
    decreases |p|
  {
    hide Matches, TokensFrom, Describes, IsClass;
    forall q: Bytes | |q| < |p| ensures Means(w, true, q) && Means(w, false, q) {
      TokensMean(w, true, q);
      TokensMean(w, false, q);
    }
    if p == [] {
      NothingMeans(w, start);
    } else if p[0] == 92 && |p| > 1 {
      assert Means(w, p[1] == 47, p[2..]);
      EscapedMeans(w, start, p);
    } else if p[0] == 63 {
      assert Means(w, false, p[1..]);
      QuestionMeans(w, start, p);
    } else if p[0] == 42 {
      StarredMeans(w, start, p);
    } else if p[0] == 91 && exists sign, items, rest :: IsClass(p, sign, items, rest) {
      var sign, items, rest :| IsClass(p, sign, items, rest);
      ClassIsRead(w, start, p, sign, items, rest);
      assert Means(w, false, rest);
      BracketMeans(w, start, p, sign, items, rest);
    } else {
      assert Means(w, p[0] == 47, p[1..]);
      AloneMeans(w, start, p);
    }
  }

  /** Matching a pattern takes exactly the texts it describes. */
  method MatchPattern(w: bool, pattern: Bytes, text: Bytes) returns (matched: bool)
    ensures matched <==> Describes(w, true, pattern, text)
    ensures matched <==> Matches(w, TokensOf(w, pattern), text)
  {
    hide Describes, Matches;
    var tokens := Tokenize(w, pattern);
    TokensAreCanonical(w, true, pattern);
    AllIsLast(w, true, tokens);
    matched := MatchTokens(w, tokens, text);
    TokensMean(w, true, pattern);
  }

  // ----- Plain patterns

  /** Nothing in it is a wildcard, an escape or a bracket. */
  predicate Plain(p: Bytes) { forall k | 0 <= k < |p| :: p[k] !in {92, 63, 42, 91} }

  /** A plain pattern describes the texts that differ in letter case at most. */
  lemma {:induction false} PlainIsItself(w: bool, start: bool, p: Bytes, text: Bytes)
    requires Plain(p)
    ensures Describes(w, start, p, text) <==>
            |text| == |p| && forall k | 0 <= k < |p| :: Same(w, p[k], text[k])
    decreases |p|
  {
    if p != [] && text != [] {
      var rest, after := p[1..], text[1..];
      assert Plain(rest) by { assert forall k | 0 <= k < |rest| :: rest[k] == p[k + 1]; }
      PlainIsItself(w, p[0] == 47, rest, after);
      hide Describes;
      if |after| == |rest| {
        assert forall k | 0 < k < |p| :: rest[k - 1] == p[k] && after[k - 1] == text[k];
        assert forall k | 0 <= k < |rest| :: rest[k] == p[k + 1] && after[k] == text[k + 1];
      }
    }
  }

  /** Its tokens are its bytes, folded, one for each. */
  lemma {:induction false} PlainTokens(w: bool, start: bool, p: Bytes)
    requires Plain(p)
    ensures |TokensFrom(w, start, p)| == |p|
    ensures forall k | 0 <= k < |p| :: TokensFrom(w, start, p)[k] == Literal(Lower(w, p[k]))
    decreases |p|
  {
    hide TokensFrom, Next;
    if p == [] {
      NoTokensLeft(w, start);
    } else {
      assert Plain(p[1..]) by { assert forall k | 0 <= k < |p[1..]| :: p[1..][k] == p[k + 1]; }
      assert p[0] != 91;
      AloneIsRead(w, start, p);
      TokensFirst(w, start, p);
      PlainTokens(w, p[0] == 47, p[1..]);
    }
  }

  /** Off Windows a plain pattern is exactly itself. */
  lemma PlainMeansEqual(start: bool, p: Bytes, text: Bytes)
    requires Plain(p)
    ensures Describes(false, start, p, text) <==> text == p
  {
    hide Describes;
    PlainIsItself(false, start, p, text);
  }
}
