/** A text is masked as its bytes are. */
module MaskedBytes {
  import opened ByteText
  import Json
  import opened Masking
  import Redact
  import RedactCursor
  import opened Secrets
  import TextMask
  import Strings
  import Utf8
  import opened Wrappers

  // ----- Characters and their bytes

  lemma TwoBytes(a: nat, b: nat)
    requires a / 0x40 == b / 0x40 && a % 0x40 == b % 0x40
    ensures a == b
  {
  }

  lemma EncodeOnce(a: char, b: char)
    requires Utf8.Encode(a as int) == Utf8.Encode(b as int)
    ensures a == b
  {
    var x, y := a as int, b as int;
    assert |Utf8.Encode(x)| == |Utf8.Encode(y)|;
    if x >= 0x80 {
      assert x % 0x40 == y % 0x40;
      if x >= 0x800 {
        assert x / 0x40 % 0x40 == y / 0x40 % 0x40;
        if x >= 0x10000 {
          assert x / 0x1000 % 0x40 == y / 0x1000 % 0x40 && x / 0x40000 == y / 0x40000;
          Shifted(x);
          Shifted(y);
          TwoBytes(x / 0x1000, y / 0x1000);
        }
        Shifted(x);
        Shifted(y);
        TwoBytes(x / 0x40, y / 0x40);
      }
      TwoBytes(x, y);
    }
  }

  lemma Shifted(x: nat)
    ensures x / 0x40 / 0x40 == x / 0x1000 && x / 0x1000 / 0x40 == x / 0x40000
  {
  }

  /** A character is told from the bytes a text begins with. */
  lemma FirstCharacter(a: char, x: Bytes, b: char, y: Bytes)
    requires Utf8.Encode(a as int) + x <= Utf8.Encode(b as int) + y
    ensures a == b && x <= y
  {
    hide Utf8.Encode, Utf8.FirstChar;
    var p, q := Utf8.Encode(a as int), Utf8.Encode(b as int);
    var s := q + y;
    var z := s[|p + x|..];
    assert s == p + (x + z);
    Utf8.EncodedIsWhole(a as int, x + z);
    Utf8.EncodedIsWhole(b as int, y);
    assert s[..|p|] == p && s[..|q|] == q;
    EncodeOnce(a, b);
    assert s[|p|..] == x + z && s[|q|..] == y;
  }

  lemma {:induction false} SpelledPrefix(p: string, text: string)
    ensures Spelled(p) <= Spelled(text) <==> p <= text
    decreases |p|
  {
    hide Utf8.Encode;
    if p != [] && text != [] {
      SpelledPrefix(p[1..], text[1..]);
      if Spelled(p) <= Spelled(text) {
        FirstCharacter(p[0], Spelled(p[1..]), text[0], Spelled(text[1..]));
      }
      if p <= text {
        assert p[0] == text[0] && p[1..] <= text[1..];
      }
    }
  }

  /** No text begins inside a character. */
  lemma NoTextInside(p: string, c: char, rest: Bytes, j: nat)
    requires p != [] && 0 < j < |Utf8.Encode(c as int)|
    ensures !(Spelled(p) <= (Utf8.Encode(c as int) + rest)[j..])
  {
    var code := Utf8.Encode(c as int);
    Utf8.LeadAndFollowers(c as int);
    Utf8.LeadAndFollowers(p[0] as int);
    hide Utf8.Encode;
    assert (code + rest)[j..][0] == code[j];
    assert Spelled(p)[0] == Utf8.Encode(p[0] as int)[0];
    assert 0x80 <= code[j] <= 0xBF && Utf8.Width(code[j]) == 0;
  }

  lemma MarkSpelled()
    ensures Spelled(MARK) == Redact.REDACTED
  {
    AsciiSpelled(MARK);
  }

  /** Replacing a text in a text replaces its bytes. */
  lemma {:induction false} ReplacedBytes(p: string, text: string)
    requires p != []
    ensures Spelled(p) != [] && Spelled(Replaced(p, text)) == RedactCursor.Replaced(Spelled(p), Spelled(text))
    decreases |text|
  {
    hide Utf8.Encode, RedactCursor.Replaced, MARK, Redact.REDACTED;
    assert Spelled(p) != [];
    var bytes := Spelled(text);
    SpelledPrefix(p, text);
    if text == [] {
      RedactCursor.NothingReplaced(Spelled(p), bytes);
    } else if p <= text {
      var rest := text[|p|..];
      assert text == p + rest;
      SpelledConcat(p, rest);
      assert bytes[|Spelled(p)|..] == Spelled(rest);
      RedactCursor.ReplacedFirst(Spelled(p), bytes);
      ReplacedBytes(p, rest);
      SpelledConcat(MARK, Replaced(p, rest));
      MarkSpelled();
    } else {
      var c, rest := text[0], text[1..];
      var code := Utf8.Encode(c as int);
      forall j | 0 <= j < |code|
        ensures !(Spelled(p) <= bytes[j..])
      {
        if j > 0 {
          NoTextInside(p, c, Spelled(rest), j);
        } else {
          assert bytes[0..] == bytes;
        }
      }
      TextMask.UntouchedFront(Spelled(p), bytes, |code|);
      assert bytes[..|code|] == code && bytes[|code|..] == Spelled(rest);
      ReplacedBytes(p, rest);
      OneCharacter(c, Replaced(p, rest));
    }
  }

  lemma OneCharacter(c: char, rest: string)
    ensures Spelled([c] + rest) == Utf8.Encode(c as int) + Spelled(rest)
  {
    hide Utf8.Encode;
    assert ([c] + rest)[1..] == rest;
  }

  function SpelledEach(patterns: seq<string>): (spelled: seq<Bytes>)
    ensures |spelled| == |patterns| && forall k | 0 <= k < |patterns| :: spelled[k] == Spelled(patterns[k])
  {
    seq(|patterns|, k requires 0 <= k < |patterns| => Spelled(patterns[k]))
  }

  /** The bytes of a masked text are its masked bytes. */
  lemma {:induction false} MaskedAsBytes(patterns: seq<string>, text: string)
    requires Masking.Usable(patterns)
    ensures Spelled(MaskText(patterns, text)) == RedactCursor.MaskEach(SpelledEach(patterns), Spelled(text))
    decreases |patterns|
  {
    hide Replaced, RedactCursor.Replaced, Spelled;
    if patterns != [] {
      ReplacedBytes(patterns[0], text);
      MaskedAsBytes(patterns[1..], Replaced(patterns[0], text));
      assert SpelledEach(patterns)[1..] == SpelledEach(patterns[1..]);
    }
  }

  // ----- The patterns of registered texts

  lemma SpelledBoth(a: seq<string>, b: seq<string>)
    ensures SpelledEach(a + b) == SpelledEach(a) + SpelledEach(b)
  {
    hide Spelled;
  }

  /** The texts of one secret's patterns. */
  lemma OwnTexts(text: string) returns (own: seq<string>)
    ensures Masking.Usable(own)
    ensures SpelledEach(own) == (if SecretOf(text).raw == [] then [] else [SecretOf(text).raw])
                                + (if SecretOf(text).escaped == [] then [] else [SecretOf(text).escaped])
  {
    var escaped := Json.EscapedAll(text);
    assert Spelled([]) == [];
    hide Spelled;
    var a := if Spelled(text) == [] then [] else [text];
    var b := if Spelled(escaped) == [] then [] else [escaped];
    own := a + b;
    SpelledBoth(a, b);
  }

  /** Every pattern of registered texts is the bytes of a text. */
  lemma {:induction false} PiecesAreTexts(secrets: seq<Secret>) returns (patterns: seq<string>)
    requires Added(secrets)
    ensures Masking.Usable(patterns) && SpelledEach(patterns) == Pieces(secrets)
    decreases |secrets|
  {
    hide SecretOf, Spelled;
    if secrets == [] {
      patterns := [];
    } else {
      var text :| secrets[0] == SecretOf(text);
      var own := OwnTexts(text);
      var more := PiecesAreTexts(secrets[1..]);
      patterns := own + more;
      SpelledBoth(own, more);
    }
  }

  lemma PatternsAreTexts(registered: seq<Secret>) returns (patterns: seq<string>)
    requires Added(registered)
    ensures Masking.Usable(patterns) && SpelledEach(patterns) == Patterns(registered)
  {
    hide SecretOf, Pieces;
    var secrets := Deduplicated(Sorted(NonEmpty(registered)));
    forall k | 0 <= k < |secrets|
      ensures exists text :: secrets[k] == SecretOf(text)
    {
      DeduplicatedKeeps(Sorted(NonEmpty(registered)), secrets[k]);
      SortedKeeps(NonEmpty(registered), secrets[k]);
      NonEmptyKeeps(registered, secrets[k]);
      var i :| 0 <= i < |registered| && registered[i] == secrets[k];
    }
    patterns := PiecesAreTexts(secrets);
  }

  // ----- Where replacing one after the other shows something else

  const C: Byte := 'c' as int

  /** The secret `ac` stands in the mark itself: its escaped form, which is the
      same, is replaced inside the first replacement, and is there again. */
  lemma SecretInsideMark()
    ensures var patterns, p := Patterns([SecretOf("ac")]), Spelled("ac");
            && RedactCursor.MaskEach(patterns, p) != Redact.Mask(patterns, p)
            && !TextMask.Absent(p, RedactCursor.MaskEach(patterns, p))
  {
    PlainSecret("ac");
    AsciiSpelled("ac");
    assert Spelled("ac") == [A, C];
    PatternsOfOne(SecretOf("ac"));
    hide SecretOf, Spelled, Patterns;
    MaskedTwice([A, C]);
  }

  lemma MaskedTwice(p: Bytes)
    requires p == [A, C]
    ensures RedactCursor.MaskEach([p, p], p) != Redact.Mask([p, p], p)
    ensures !TextMask.Absent(p, RedactCursor.MaskEach([p, p], p))
  {
    var mark := Redact.REDACTED;
    ReplacedAlone(p);
    ReplacedInMark(p);
    hide RedactCursor.Replaced;
    var none: seq<Bytes> := [];
    assert [p, p][1..] == [p] && [p][1..] == none;
    var shown := mark[..4] + (mark + mark[6..]);
    assert RedactCursor.MaskEach([p], mark) == RedactCursor.MaskEach(none, shown) == shown;
    assert RedactCursor.MaskEach([p, p], p) == shown;
    TextMask.FirstTried(p, [p], p);
    assert [p] + [p] == [p, p];
    TextMask.MatchStep([p, p], p);
    TextMask.NothingMasked([p, p]);
    assert |Redact.Mask([p, p], p)| == 10 && |shown| == 18;
    MarkHolds(p);
    assert shown[8] == mark[4] && shown[9] == mark[5];
    assert shown[8..][..2] == p;
  }

  lemma MarkHolds(p: Bytes)
    requires p == [A, C]
    ensures p == [Redact.REDACTED[4], Redact.REDACTED[5]]
  {
  }

  lemma ReplacedAlone(p: Bytes)
    requires p != []
    ensures RedactCursor.Replaced(p, p) == Redact.REDACTED
  {
    hide RedactCursor.Replaced, Redact.REDACTED;
    RedactCursor.ReplacedFirst(p, p);
    RedactCursor.NothingReplaced(p, p);
    assert p[|p|..] == [] && Redact.REDACTED + [] == Redact.REDACTED;
  }

  lemma ReplacedInMark(p: Bytes)
    requires p == [A, C]
    ensures var mark := Redact.REDACTED;
            RedactCursor.Replaced(p, mark) == mark[..4] + (mark + mark[6..])
  {
    hide RedactCursor.Replaced;
    var mark := Redact.REDACTED;
    forall j | 0 <= j < 4
      ensures !(p <= mark[j..])
    {
      assert mark[j..][0] == mark[j] != A;
    }
    TextMask.UntouchedFront(p, mark, 4);
    assert mark[4..][0] == A && mark[4..][1] == C && p <= mark[4..] && mark[4..][2..] == mark[6..];
    RedactCursor.ReplacedFirst(p, mark[4..]);
    var end := mark[6..];
    forall j | 0 <= j < 4
      ensures !(p <= end[j..])
    {
      assert end[j..][0] == end[j] == mark[6 + j] != A;
    }
    TextMask.UntouchedFront(p, end, 4);
    assert end[..4] == end && end[4..] == [];
    RedactCursor.NothingReplaced(p, end);
  }

  /** Where two secrets overlap, the longer is replaced first in the text, and
      the one that begins first in the scan. */
  lemma OverlapsDiffer()
    ensures var patterns := Patterns([SecretOf("xa"), SecretOf("abQ")]);
            && RedactCursor.MaskEach(patterns, [X, A, B, Q]) == [X] + Redact.REDACTED
            && Redact.Mask(patterns, [X, A, B, Q]) == Redact.REDACTED + [B, Q]
  {
    OverlappingSecrets();
    hide SecretOf, Patterns;
    Overlapping([A, B, Q], [X, A]);
  }

  lemma Overlapping(p: Bytes, q: Bytes)
    requires p == [A, B, Q] && q == [X, A]
    ensures RedactCursor.MaskEach([p, p, q, q], [X, A, B, Q]) == [X] + Redact.REDACTED
    ensures Redact.Mask([p, p, q, q], [X, A, B, Q]) == Redact.REDACTED + [B, Q]
  {
    var text, mark := [X, A, B, Q], Redact.REDACTED;
    var shown := [X] + mark;
    hide RedactCursor.Replaced, Redact.Mask, Redact.MatchLength;
    assert text[1..] == p && text[..1] == [X] && p[0] != text[0] && !(p <= text);
    RedactCursor.ReplacedFirst(p, text);
    ReplacedAlone(p);
    assert RedactCursor.Replaced(p, text) == shown;
    NotInMark(p);
    NotInMark(q);
    var none: seq<Bytes> := [];
    assert [p, p, q, q][1..] == [p, q, q] && [p, q, q][1..] == [q, q] && [q, q][1..] == [q] && [q][1..] == none;
    assert RedactCursor.MaskEach([q], shown) == RedactCursor.MaskEach(none, shown) == shown;
    assert RedactCursor.MaskEach([q, q], shown) == shown;
    assert RedactCursor.MaskEach([p, q, q], shown) == shown;
    ScannedOverlap(p, q);
  }

  /** Neither pattern begins in the mark or where it begins. */
  lemma NotInMark(p: Bytes)
    requires p == [A, B, Q] || p == [X, A]
    ensures RedactCursor.Replaced(p, [X] + Redact.REDACTED) == [X] + Redact.REDACTED
  {
    hide RedactCursor.Replaced;
    var shown := [X] + Redact.REDACTED;
    forall j | 0 <= j < 11
      ensures !(p <= shown[j..])
    {
      assert shown[j..][0] == shown[j];
      assert j < 10 ==> shown[j..][1] == shown[j + 1];
    }
    TextMask.UntouchedFront(p, shown, 11);
    assert shown[..11] == shown && shown[11..] == [];
    RedactCursor.NothingReplaced(p, shown);
  }

  lemma ScannedOverlap(p: Bytes, q: Bytes)
    requires p == [A, B, Q] && q == [X, A]
    ensures Redact.Mask([p, p, q, q], [X, A, B, Q]) == Redact.REDACTED + [B, Q]
  {
    hide Redact.Mask, Redact.MatchLength, Redact.REDACTED;
    var text, all := [X, A, B, Q], [p, p, q, q];
    assert !(p <= text) by { assert p[0] != text[0]; }
    assert text[..2] == q && text[2..] == [B, Q] && [B, Q][1..] == [Q] && [Q][1..] == [];
    TwoPatterns(p, q, text);
    FourPatterns(p, q, text);
    TextMask.MatchStep(all, text);
    TwoPatterns(p, q, [B, Q]);
    FourPatterns(p, q, [B, Q]);
    assert !(q <= [B, Q]) by { assert q[0] != [B, Q][0]; }
    TextMask.PlainStep(all, [B, Q]);
    TwoPatterns(p, q, [Q]);
    FourPatterns(p, q, [Q]);
    TextMask.PlainStep(all, [Q]);
    TextMask.NothingMasked(all);
  }

  // ----- The length of a text in bytes

  function Scalars(text: string): (scalars: seq<Utf8.Scalar>)
    ensures |scalars| == |text| && forall k | 0 <= k < |text| :: scalars[k] == text[k] as int
  {
    seq(|text|, k requires 0 <= k < |text| => text[k] as int)
  }

  /** The byte length of a text is the length of its encoding. */
  lemma {:induction false} ByteLengthIsLength(text: string)
    ensures Strings.ByteLength(text) == |Utf8.EncodeAll(Scalars(text))|
    decreases |text|
  {
    if text == [] {
      assert Scalars(text) == [];
    } else {
      ByteLengthIsLength(text[1..]);
      assert Scalars(text) == [text[0] as int] + Scalars(text[1..]);
    }
  }
}
