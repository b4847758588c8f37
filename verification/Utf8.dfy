/**
  Checking text chunk by chunk: well-formed UTF-8 (section 4 of RFC 3629)
  without a NUL byte, keeping only an unfinished character between chunks.
 */
module Utf8 {
  import opened Wrappers
  import opened ByteText

  // ----- What well-formed means

  type Scalar = c: int | 0 <= c < 0xD800 || 0xE000 <= c <= 0x10FFFF

  function Encode(c: Scalar): (r: Bytes)
    ensures 1 <= |r| <= 4
  {
    if c < 0x80 then [c]
    else if c < 0x800 then [0xC0 + c / 0x40, 0x80 + c % 0x40]
    else if c < 0x10000 then [0xE0 + c / 0x1000, 0x80 + c / 0x40 % 0x40, 0x80 + c % 0x40]
    else [0xF0 + c / 0x40000, 0x80 + c / 0x1000 % 0x40, 0x80 + c / 0x40 % 0x40, 0x80 + c % 0x40]
  }

  function EncodeAll(text: seq<Scalar>): Bytes {
    if text == [] then [] else Encode(text[0]) + EncodeAll(text[1..])
  }

  /** The encoding of some sequence of Unicode scalar values. */
  ghost predicate WellFormed(s: Bytes) {
    exists text: seq<Scalar> :: EncodeAll(text) == s
  }

  /** The beginning of some character, but not all of it. */
  ghost predicate Unfinished(s: Bytes) {
    s != [] && exists c: Scalar :: s < Encode(c)
  }

  // ----- The check of the standard library

  datatype Head = Whole(n: nat) | Partial | Invalid

  function Width(b: Byte): nat {
    if b < 0x80 then 1
    else if 0xC2 <= b <= 0xDF then 2
    else if 0xE0 <= b <= 0xEF then 3
    else if 0xF0 <= b <= 0xF4 then 4
    else 0
  }

  predicate Continues(b: Byte) { 0x80 <= b <= 0xBF }

  predicate Second(first: Byte, b: Byte) {
    if first == 0xE0 then 0xA0 <= b <= 0xBF
    else if first == 0xED then 0x80 <= b <= 0x9F
    else if first == 0xF0 then 0x90 <= b <= 0xBF
    else if first == 0xF4 then 0x80 <= b <= 0x8F
    else Continues(b)
  }

  /** The character a text starts with: all there, cut short, or no character. */
  function FirstChar(s: Bytes): (r: Head)
    requires s != []
    ensures r.Whole? ==> 1 <= r.n <= |s| && r.n <= 4
    ensures r == Partial ==> |s| < 4
  {
    var w := Width(s[0]);
    if w == 0 then Invalid
    else if w == 1 then Whole(1)
    else if |s| < 2 then Partial
    else if !Second(s[0], s[1]) then Invalid
    else if w == 2 then Whole(2)
    else if |s| < 3 then Partial
    else if !Continues(s[2]) then Invalid
    else if w == 3 then Whole(3)
    else if |s| < 4 then Partial
    else if !Continues(s[3]) then Invalid
    else Whole(4)
  }

  datatype Verdict = Good | Short(valid: nat) | Bad

  /** Good text; good text up to an unfinished character; or neither. */
  function Check(s: Bytes): (r: Verdict)
    ensures r.Short? ==> r.valid < |s| <= r.valid + 3
    decreases |s|
  {
    if s == [] then Good
    else match FirstChar(s)
      case Partial => Short(0)
      case Invalid => Bad
      case Whole(n) =>
        match Check(s[n..])
        case Good => Good
        case Short(valid) => Short(n + valid)
        case Bad => Bad
  }

  // ----- The check decides exactly that

  /** The value a lead byte's payload and its continuation bytes spell. */
  function Joined(lead: int, low: seq<Byte>): int
    decreases |low|
  {
    if low == [] then lead else Joined(lead, low[..|low| - 1]) * 0x40 + (low[|low| - 1] as int - 0x80)
  }

  lemma Joined1(lead: int, b: Byte)
    requires Continues(b)
    ensures Joined(lead, [b]) == lead * 0x40 + (b as int - 0x80)
    ensures Joined(lead, [b]) / 0x40 == lead && Joined(lead, [b]) % 0x40 == b - 0x80
  {
    assert [b][..0] == [];
  }

  lemma Joined2(lead: int, b: Byte, c: Byte)
    requires Continues(b) && Continues(c)
    ensures Joined(lead, [b, c]) == Joined(lead, [b]) * 0x40 + (c as int - 0x80)
    ensures Joined(lead, [b, c]) / 0x40 == Joined(lead, [b]) && Joined(lead, [b, c]) % 0x40 == c - 0x80
    ensures Joined(lead, [b, c]) / 0x1000 == lead
  {
    assert [b, c][..1] == [b];
    Joined1(lead, b);
  }

  lemma Joined3(lead: int, b: Byte, c: Byte, d: Byte)
    requires Continues(b) && Continues(c) && Continues(d)
    ensures Joined(lead, [b, c, d]) == Joined(lead, [b, c]) * 0x40 + (d as int - 0x80)
    ensures Joined(lead, [b, c, d]) / 0x40 == Joined(lead, [b, c]) && Joined(lead, [b, c, d]) % 0x40 == d - 0x80
    ensures Joined(lead, [b, c, d]) / 0x1000 == Joined(lead, [b]) && Joined(lead, [b, c, d]) / 0x40000 == lead
  {
    assert [b, c, d][..2] == [b, c];
    Joined1(lead, b);
    Joined2(lead, b, c);
  }

  lemma DecodedIsEncoded(s: Bytes) returns (c: Scalar)
    requires s != [] && FirstChar(s).Whole?
    ensures Encode(c) == s[..FirstChar(s).n]
  {
    var n := FirstChar(s).n;
    if n == 1 {
      c := s[0];
    } else if n == 2 {
      c := DecodedTwo(s[0], s[1]);
    } else if n == 3 {
      c := DecodedThree(s[0], s[1], s[2]);
    } else {
      c := DecodedFour(s[0], s[1], s[2], s[3]);
    }
  }

  lemma DecodedTwo(a: Byte, b: Byte) returns (c: Scalar)
    requires 0xC2 <= a <= 0xDF && Continues(b)
    ensures Encode(c) == [a, b]
  {
    Joined1(a - 0xC0, b);
    hide Joined;
    c := Joined(a - 0xC0, [b]);
  }

  lemma DecodedThree(a: Byte, b: Byte, d: Byte) returns (c: Scalar)
    requires 0xE0 <= a <= 0xEF && Second(a, b) && Continues(b) && Continues(d)
    ensures Encode(c) == [a, b, d]
  {
    Joined1(a - 0xE0, b);
    Joined2(a - 0xE0, b, d);
    hide Joined;
    c := Joined(a - 0xE0, [b, d]);
  }

  lemma DecodedFour(a: Byte, b: Byte, d: Byte, e: Byte) returns (c: Scalar)
    requires 0xF0 <= a <= 0xF4 && Second(a, b) && Continues(b) && Continues(d) && Continues(e)
    ensures Encode(c) == [a, b, d, e]
  {
    Joined1(a - 0xF0, b);
    Joined2(a - 0xF0, b, d);
    Joined3(a - 0xF0, b, d, e);
    hide Joined;
    c := Joined(a - 0xF0, [b, d, e]);
  }

  lemma EncodedIsWhole(c: Scalar, rest: Bytes)
    ensures FirstChar(Encode(c) + rest) == Whole(|Encode(c)|)
  {
    var code := Encode(c);
    LeadAndFollowers(c);
    hide Encode;
    var s := code + rest;
    assert s[0] == code[0];
    assert |code| > 1 ==> s[1] == code[1];
    assert |code| > 2 ==> s[2] == code[2];
    assert |code| > 3 ==> s[3] == code[3];
  }

  /** What an encoding looks like, byte by byte. */
  lemma LeadAndFollowers(c: Scalar)
    ensures var code := Encode(c);
            && Width(code[0]) == |code|
            && (|code| > 1 ==> Second(code[0], code[1]))
            && (|code| > 2 ==> Continues(code[2]))
            && (|code| > 3 ==> Continues(code[3]))
  {
  }

  lemma StartIsPartial(c: Scalar, n: nat)
    requires 0 < n < |Encode(c)|
    ensures FirstChar(Encode(c)[..n]) == Partial
  {
    EncodedIsWhole(c, []);
    assert Encode(c) + [] == Encode(c);
  }

  /** A cut character can be completed. */
  lemma PartialCompletes(s: Bytes) returns (rest: Bytes)
    requires s != [] && FirstChar(s) == Partial
    ensures rest != [] && FirstChar(s + rest) == Whole(|s + rest|)
  {
    var w := Width(s[0]);
    var second: Byte := if s[0] == 0xE0 then 0xA0 else if s[0] == 0xF0 then 0x90 else 0x80;
    var tail: Bytes := [second, 0x80, 0x80];
    rest := tail[|s| - 1..w - 1];
  }

  lemma FirstCharMeans(s: Bytes)
    requires s != []
    ensures FirstChar(s).Whole? <==> exists c: Scalar :: Encode(c) <= s
    ensures FirstChar(s) == Partial <==> Unfinished(s)
  {
    if FirstChar(s).Whole? {
      var c := DecodedIsEncoded(s);
      assert Encode(c) <= s;
    }
    if FirstChar(s) == Partial {
      var rest := PartialCompletes(s);
      var c := DecodedIsEncoded(s + rest);
      assert s < Encode(c);
    }
    if c: Scalar :| Encode(c) <= s {
      EncodedIsWhole(c, s[|Encode(c)|..]);
      assert s == Encode(c) + s[|Encode(c)|..];
    }
    if Unfinished(s) {
      var c: Scalar :| s < Encode(c);
      StartIsPartial(c, |s|);
      assert s == Encode(c)[..|s|];
    }
  }

  lemma {:induction false} GoodIsWellFormed(s: Bytes) returns (text: seq<Scalar>)
    requires Check(s) == Good
    ensures EncodeAll(text) == s
    decreases |s|
  {
    hide Encode, FirstChar, EncodeAll, Check;
    if s == [] {
      text := [];
      NothingEncoded();
    } else {
      GoodGoesOn(s);
      var n := FirstChar(s).n;
      var c := DecodedIsEncoded(s);
      var more := GoodIsWellFormed(s[n..]);
      text := [c] + more;
      OneMoreEncoded(c, more, s, n);
    }
  }

  lemma NothingEncoded()
    ensures EncodeAll([]) == []
  {
  }

  lemma GoodGoesOn(s: Bytes)
    requires Check(s) == Good && s != []
    ensures FirstChar(s).Whole? && Check(s[FirstChar(s).n..]) == Good
  {
    hide FirstChar;
  }

  lemma OneMoreEncoded(c: Scalar, more: seq<Scalar>, s: Bytes, n: nat)
    requires n <= |s| && Encode(c) == s[..n] && EncodeAll(more) == s[n..]
    ensures EncodeAll([c] + more) == s
  {
    hide Encode;
    assert ([c] + more)[1..] == more;
    assert s[..n] + s[n..] == s;
  }

  lemma {:induction false} EncodedIsGood(text: seq<Scalar>)
    ensures Check(EncodeAll(text)) == Good
  {
    if text != [] {
      var head, rest := Encode(text[0]), EncodeAll(text[1..]);
      EncodedIsGood(text[1..]);
      EncodedIsWhole(text[0], rest);
      assert (head + rest)[|head|..] == rest;
    }
  }

  /** Text is good exactly when it encodes scalar values. */
  lemma CheckMeans(s: Bytes)
    ensures Check(s) == Good <==> WellFormed(s)
  {
    if Check(s) == Good {
      var text := GoodIsWellFormed(s);
    }
    if text: seq<Scalar> :| EncodeAll(text) == s {
      EncodedIsGood(text);
    }
  }

  // ----- Adding bytes

  /** What is left to finish: nothing, the unfinished character, or no hope. */
  function Rest(s: Bytes): Option<Bytes> {
    match Check(s) case Good => Some([]) case Short(valid) => Some(s[valid..]) case Bad => None
  }

  lemma FirstCharIsSettled(s: Bytes, more: Bytes)
    requires s != [] && FirstChar(s) != Partial
    ensures FirstChar(s + more) == FirstChar(s)
  {
  }

  /** Only the unfinished end of what was checked matters to what follows. */
  lemma {:induction false} CheckedPartIsSettled(s: Bytes, more: Bytes)
    ensures Rest(s + more) == match Rest(s) case None => None case Some(rest) => Rest(rest + more)
    decreases |s|
  {
    hide FirstChar;
    if s == [] {
      assert s + more == more && [] + more == more;
    } else if FirstChar(s) == Partial {
      assert s[0..] == s;
    } else {
      FirstCharIsSettled(s, more);
      if FirstChar(s).Whole? {
        var n := FirstChar(s).n;
        CheckedPartIsSettled(s[n..], more);
        assert (s + more)[n..] == s[n..] + more;
        RestAfter(s);
        RestAfter(s + more);
      }
    }
  }

  lemma RestAfter(s: Bytes)
    requires s != [] && FirstChar(s).Whole?
    ensures Rest(s) == Rest(s[FirstChar(s).n..])
  {
    hide FirstChar;
    var n := FirstChar(s).n;
    var c := Check(s[n..]);
    if c.Short? {
      assert s[n..][c.valid..] == s[n + c.valid..];
    }
  }

  lemma NoCharacter()
    ensures WellFormed([])
  {
    assert EncodeAll([]) == [];
  }

  lemma OneMoreChar(c: Scalar, s: Bytes)
    requires WellFormed(s)
    ensures WellFormed(Encode(c) + s)
  {
    var text: seq<Scalar> :| EncodeAll(text) == s;
    assert EncodeAll([c] + text) == Encode(c) + s;
  }

  lemma PartialIsRest(s: Bytes)
    requires s == [] || FirstChar(s) == Partial
    ensures Rest(s) == Some(s) && |s| <= 3 && (s == [] || Unfinished(s))
  {
    if s != [] {
      hide Unfinished;
      FirstCharMeans(s);
      assert s[0..] == s;
    }
  }

  lemma InvalidHasNoRest(s: Bytes)
    requires s != [] && FirstChar(s) == Invalid
    ensures Rest(s) == None
  {
  }

  /** The retained end is short, unfinished and settles nothing by itself. */
  lemma {:induction false} RestIsUnfinished(s: Bytes)
    requires Rest(s).Some?
    ensures var rest := Rest(s).value;
            && |rest| <= |s| && |rest| <= 3 && Rest(rest) == Some(rest) && (rest == [] || Unfinished(rest))
            && WellFormed(s[..|s| - |rest|])
    decreases |s|
  {
    hide FirstChar, Encode, WellFormed, Unfinished, Check, Rest;
    NoCharacter();
    if s == [] || FirstChar(s) == Partial {
      PartialIsRest(s);
      assert s[..0] == [];
    } else if FirstChar(s) == Invalid {
      InvalidHasNoRest(s);
    } else {
      var n := FirstChar(s).n;
      RestAfter(s);
      RestIsUnfinished(s[n..]);
      var c := DecodedIsEncoded(s);
      var k := |s| - |Rest(s).value|;
      OneMoreChar(c, s[n..][..k - n]);
      assert s[..k] == s[..n] + s[n..][..k - n];
    }
  }

  // ----- Chunks

  /** The retained end after one more chunk, unless the text is refused. */
  function Pushed(tail: Bytes, chunk: Bytes): Option<Bytes> {
    if 0 in chunk then None else Rest(tail + chunk)
  }

  function PushedAll(tail: Bytes, chunks: seq<Bytes>): Option<Bytes>
    decreases |chunks|
  {
    if chunks == [] then Some(tail)
    else match Pushed(tail, chunks[0]) case None => None case Some(rest) => PushedAll(rest, chunks[1..])
  }

  lemma {:induction false} ChunksAddUp(tail: Bytes, chunks: seq<Bytes>)
    requires Rest(tail) == Some(tail)
    ensures PushedAll(tail, chunks) == if 0 in Concat(chunks) then None else Rest(tail + Concat(chunks))
    decreases |chunks|
  {
    hide Rest;
    if chunks == [] {
      assert tail + [] == tail;
    } else {
      var rest := Concat(chunks[1..]);
      CheckedPartIsSettled(tail + chunks[0], rest);
      assert (tail + chunks[0]) + rest == tail + Concat(chunks);
      if Rest(tail + chunks[0]).Some? {
        RestIsUnfinished(tail + chunks[0]);
        ChunksAddUp(Rest(tail + chunks[0]).value, chunks[1..]);
      }
    }
  }

  /** Every chunk is accepted and nothing is left over exactly when the whole
      stream is well-formed and holds no NUL, wherever it was cut. */
  lemma ChunksDecideTheWhole(chunks: seq<Bytes>)
    ensures PushedAll([], chunks) == Some([]) <==> WellFormed(Concat(chunks)) && 0 !in Concat(chunks)
  {
    hide Rest, PushedAll, WellFormed, Concat;
    RestOf([]);
    ChunksAddUp([], chunks);
    assert [] + Concat(chunks) == Concat(chunks);
    RestDecides(Concat(chunks));
  }

  lemma RestOf(s: Bytes)
    ensures Rest([]) == Some([])
    ensures match Check(s)
            case Good => Rest(s) == Some([])
            case Short(valid) => Rest(s) == Some(s[valid..])
            case Bad => Rest(s) == None
  {
  }

  class Text {
    const tail: array<Byte>
    var length: nat
    /** Every byte pushed so far. */
    ghost var pushed: Bytes

    ghost predicate Valid()
      reads this, tail
    {
      tail.Length == 4 && length <= 3 && Rest(Tail()) == Some(Tail())
    }

    /** The retained end is the unfinished end of all that was pushed. */
    ghost predicate Sound()
      reads this, tail
    {
      Valid() && 0 !in pushed && Rest(pushed) == Some(Tail())
    }

    ghost function Tail(): Bytes
      requires length <= tail.Length
      reads this, tail
    {
      tail[..length]
    }

    constructor ()
      ensures Sound() && pushed == [] && fresh(tail)
    {
      tail, length, pushed := new Byte[4](_ => 0), 0, [];
    }

    /** Copies as much of `chunk` as fits behind the retained end. */
    method Fill(chunk: Bytes, start: nat) returns (at: nat)
      requires tail.Length == 4 && length <= 3 && start < |chunk|
      modifies this`length, tail
      ensures start < at <= |chunk| && length <= 4
      ensures Tail() == old(Tail()) + chunk[start..at]
    {
      var take := if 4 - length < |chunk| - start then 4 - length else |chunk| - start;
      at := start + take;
      ghost var before := tail[..];
      forall k | 0 <= k < take { tail[length + k] := chunk[start + k]; }
      length := length + take;
      assert tail[..old(length)] == before[..old(length)];
      assert tail[old(length)..length] == chunk[start..at];
    }

    /** Drops the characters the filled end now completes. */
    method Settle() returns (accepted: bool)
      requires tail.Length == 4 && length <= 4
      modifies this`length, tail
      ensures accepted == Rest(old(Tail())).Some?
      ensures accepted ==> Valid() && Tail() == Rest(old(Tail())).value
    {
      hide Check, Rest, Unfinished, WellFormed;
      ghost var filled := Tail();
      RestOf(filled);
      match Check(tail[..length]) {
        case Good =>
          length := 0;
          assert Tail() == [];
        case Short(valid) =>
          RestIsUnfinished(filled);
          forall k | 0 <= k < length - valid { tail[k] := tail[valid + k]; }
          length := length - valid;
          assert tail[..length] == filled[valid..];
        case Bad =>
          return false;
      }
      accepted := true;
    }

    /** Tops the retained end up from `chunk` and settles what it can. */
    method Refill(chunk: Bytes, start: nat) returns (at: nat, accepted: bool)
      requires Valid() && length > 0 && start < |chunk|
      modifies this`length, tail
      ensures start < at <= |chunk|
      ensures accepted ==> Valid() && Rest(old(Tail()) + chunk[start..]) == Rest(Tail() + chunk[at..])
      ensures !accepted ==> Rest(old(Tail()) + chunk[start..]) == None
    {
      hide Rest;
      ghost var before := Tail();
      at := Fill(chunk, start);
      ghost var filled := before + chunk[start..at];
      assert before + chunk[start..] == filled + chunk[at..];
      CheckedPartIsSettled(filled, chunk[at..]);
      accepted := Settle();
    }

    /** Keeps the unfinished end of text that starts at a character. */
    method Keep(rest: Bytes) returns (accepted: bool)
      requires Valid() && length == 0
      modifies this`length, tail
      ensures accepted == Rest(rest).Some?
      ensures accepted ==> Valid() && Tail() == Rest(rest).value
    {
      hide Check, Rest, Unfinished, WellFormed;
      RestOf(rest);
      match Check(rest) {
        case Good =>
          assert Tail() == [];
          return true;
        case Short(valid) =>
          RestIsUnfinished(rest);
          forall k | 0 <= k < |rest| - valid { tail[k] := rest[valid + k]; }
          length := |rest| - valid;
          assert tail[..length] == rest[valid..];
          return true;
        case Bad =>
          return false;
      }
    }

    /** Validates the next chunk against what is kept of the earlier ones. */
    method Advance(chunk: Bytes) returns (accepted: bool)
      requires Valid()
      modifies this`length, tail
      ensures accepted == Pushed(old(Tail()), chunk).Some?
      ensures accepted ==> Valid() && Tail() == Pushed(old(Tail()), chunk).value
      ensures accepted ==> Tail() == [] || Unfinished(Tail())
    {
      hide Rest, Unfinished;
      if 0 in chunk {
        return false;
      }
      var at := 0;
      ghost var whole := Tail() + chunk;
      assert chunk[0..] == chunk;
      while length > 0 && at < |chunk|
        invariant at <= |chunk| && Valid()
        invariant Rest(whole) == Rest(Tail() + chunk[at..])
        decreases |chunk| - at
      {
        var settled;
        at, settled := Refill(chunk, at);
        if !settled {
          return false;
        }
      }
      if length > 0 {
        assert Tail() + chunk[at..] == Tail();
        RestIsUnfinished(whole);
        return true;
      }
      assert Tail() + chunk[at..] == chunk[at..];
      accepted := Keep(chunk[at..]);
      if accepted {
        RestIsUnfinished(whole);
      }
    }

    /** Accepts a chunk exactly when all bytes so far can still become text. */
    method Push(chunk: Bytes) returns (accepted: bool)
      requires Sound()
      modifies this, tail
      ensures pushed == old(pushed) + chunk
      ensures accepted <==> 0 !in chunk && Rest(pushed).Some?
      ensures accepted ==> Sound() && (Tail() == [] || Unfinished(Tail()))
    {
      hide Rest, Unfinished;
      CheckedPartIsSettled(pushed, chunk);
      accepted := Advance(chunk);
      pushed := pushed + chunk;
    }

    /** Accepts exactly when everything pushed is text. */
    method Finish() returns (accepted: bool)
      requires Sound()
      ensures accepted <==> WellFormed(pushed)
    {
      RestDecides(pushed);
      return length == 0;
    }
  }

  /** The chunks a reader delivers; an empty one is the end. */
  function Delivered(chunks: seq<Bytes>): Bytes {
    if chunks == [] || chunks[0] == [] then [] else chunks[0] + Delivered(chunks[1..])
  }

  method IsText(chunks: seq<Bytes>) returns (text: bool)
    ensures text <==> WellFormed(Delivered(chunks)) && 0 !in Delivered(chunks)
  {
    hide Rest, WellFormed, Check, EncodeAll, Delivered;
    var state := new Text();
    var k := 0;
    assert chunks[0..] == chunks;
    while k < |chunks| && |chunks[k]| > 0
      invariant 0 <= k <= |chunks| && state.Sound() && fresh(state) && fresh(state.tail)
      invariant Delivered(chunks) == state.pushed + Delivered(chunks[k..])
    {
      OneMoreChunk(chunks, k, state.pushed);
      var accepted := state.Push(chunks[k]);
      k := k + 1;
      if !accepted {
        Rejected(state.pushed, Delivered(chunks[k..]));
        return false;
      }
    }
    NothingMore(chunks, k);
    text := state.Finish();
    assert state.pushed + [] == state.pushed;
  }

  lemma OneMoreChunk(chunks: seq<Bytes>, k: nat, pushed: Bytes)
    requires k < |chunks| && chunks[k] != []
    ensures pushed + Delivered(chunks[k..]) == (pushed + chunks[k]) + Delivered(chunks[k + 1..])
  {
    assert chunks[k..][0] == chunks[k] && chunks[k..][1..] == chunks[k + 1..];
  }

  lemma NothingMore(chunks: seq<Bytes>, k: nat)
    requires k <= |chunks| && (k < |chunks| ==> chunks[k] == [])
    ensures Delivered(chunks[k..]) == []
  {
  }

  lemma Rejected(pushed: Bytes, rest: Bytes)
    requires 0 in pushed || Rest(pushed) == None
    ensures !WellFormed(pushed + rest) || 0 in pushed + rest
  {
    CheckedPartIsSettled(pushed, rest);
    RestDecides(pushed + rest);
  }

  lemma RestDecides(s: Bytes)
    ensures Rest(s) == Some([]) <==> WellFormed(s)
  {
    CheckMeans(s);
  }
}
