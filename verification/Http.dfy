/**
  The header of a streamed response, found however the stream is cut, and the
  form of a URL that goes on the wire.
 */
module Http {
  import opened Wrappers
  import opened ByteText

  // ----- The response decoder

  const LIMIT: nat := 64 * 1024

  const CR: Byte := '\r' as int
  const LF: Byte := '\n' as int

  const BREAK: Bytes := [CR, LF, CR, LF]

  predicate BreakAt(s: Bytes, i: nat) { i + 4 <= |s| && s[i..i + 4] == BREAK }

  /** The first blank line. */
  function FindBreak(s: Bytes, from: nat): (r: Option<nat>)
    requires from <= |s|
    ensures r.Some? ==> from <= r.value && BreakAt(s, r.value)
    ensures forall i | from <= i < (if r.Some? then r.value else |s|) :: !BreakAt(s, i)
    decreases |s| - from
  {
    if from == |s| then None else if BreakAt(s, from) then Some(from) else FindBreak(s, from + 1)
  }

  /** A header block is read by `parse`, or refused. */
  datatype State<Head> = State(pending: Bytes, head: Option<Head>, body: Bytes)

  function Fresh<Head>(): State<Head> { State([], None, []) }

  function Fed<Head>(parse: Bytes -> Option<Head>, st: State<Head>, chunk: Bytes): Result<State<Head>> {
    if st.head.Some? then Ok(st.(body := st.body + chunk))
    else
      var pending := st.pending + chunk;
      match FindBreak(pending, 0)
      case None => if |pending| > LIMIT then Err else Ok(st.(pending := pending))
      case Some(end) =>
        match parse(pending[..end])
        case None => Err
        case Some(head) => Ok(State([], Some(head), st.body + pending[end + 4..]))
  }

  function FedAll<Head>(parse: Bytes -> Option<Head>, st: State<Head>, chunks: seq<Bytes>): Result<State<Head>>
    decreases |chunks|
  {
    if chunks == [] then Ok(st)
    else match Fed(parse, st, chunks[0]) case Err => Err case Ok(next) => FedAll(parse, next, chunks[1..])
  }

  lemma BreakStays(s: Bytes, more: Bytes)
    ensures FindBreak(s, 0).Some? ==> FindBreak(s + more, 0) == FindBreak(s, 0)
  {
    if FindBreak(s, 0).Some? {
      var i := FindBreak(s, 0).value;
      forall k: nat | k <= i
        ensures BreakAt(s + more, k) <==> BreakAt(s, k)
      {
        assert (s + more)[k..k + 4] == s[k..k + 4];
      }
      assert forall k | 0 <= k < i :: !BreakAt(s, k);
      assert BreakAt(s + more, i);
    }
  }

  /** Once the header is read, chunks only add to the body. */
  lemma {:induction false} BodyAddsUp<Head>(parse: Bytes -> Option<Head>, st: State<Head>, chunks: seq<Bytes>)
    requires st.head.Some?
    ensures FedAll(parse, st, chunks) == Ok(st.(body := st.body + Concat(chunks)))
    decreases |chunks|
  {
    if chunks == [] {
      assert st.body + [] == st.body;
    } else {
      var next := st.(body := st.body + chunks[0]);
      BodyAddsUp(parse, next, chunks[1..]);
      assert next.body + Concat(chunks[1..]) == st.body + Concat(chunks);
    }
  }

  /** How far a header may reach for the way the stream is cut not to matter. */
  predicate Harmless<Head>(parse: Bytes -> Option<Head>, stream: Bytes) {
    match FindBreak(stream, 0)
    case None => true
    case Some(end) => end + 4 <= LIMIT + 1 || parse(stream[..end]) == None
  }

  /** From a state still waiting for the header, the chunks give what their
      concatenation gives at once. */
  lemma {:induction false} ChunksAddUp<Head>(parse: Bytes -> Option<Head>, pending: Bytes, chunks: seq<Bytes>)
    requires FindBreak(pending, 0) == None && |pending| <= LIMIT
    requires Harmless(parse, pending + Concat(chunks))
    ensures FedAll(parse, State(pending, None, []), chunks) == Fed(parse, Fresh(), pending + Concat(chunks))
    decreases |chunks|
  {
    hide FindBreak;
    var st: State<Head> := State(pending, None, []);
    var stream := pending + Concat(chunks);
    assert [] + stream == stream;
    if chunks == [] {
      assert stream == pending;
    } else {
      var so_far := pending + chunks[0];
      assert stream == so_far + Concat(chunks[1..]);
      if FindBreak(so_far, 0).Some? {
        BreakStays(so_far, Concat(chunks[1..]));
        HeaderArrived(parse, pending, chunks[0], chunks[1..]);
      } else if |so_far| > LIMIT {
        LateBreak(so_far, Concat(chunks[1..]));
      } else {
        ChunksAddUp(parse, so_far, chunks[1..]);
      }
    }
  }

  /** A blank line that is not there yet ends at least one byte later. */
  lemma LateBreak(s: Bytes, more: Bytes)
    requires FindBreak(s, 0) == None && |s| > LIMIT
    ensures |s + more| > LIMIT
    ensures FindBreak(s + more, 0).Some? ==> FindBreak(s + more, 0).value + 4 > LIMIT + 1
  {
    if FindBreak(s + more, 0).Some? {
      var i := FindBreak(s + more, 0).value;
      if i + 4 <= |s| {
        assert (s + more)[i..i + 4] == s[i..i + 4];
        assert BreakAt(s, i);
      }
    }
  }

  lemma HeaderArrived<Head>(parse: Bytes -> Option<Head>, pending: Bytes, chunk: Bytes, chunks: seq<Bytes>)
    requires FindBreak(pending + chunk, 0).Some?
    requires FindBreak(pending + chunk + Concat(chunks), 0) == FindBreak(pending + chunk, 0)
    ensures FedAll(parse, State(pending, None, []), [chunk] + chunks)
         == Fed(parse, Fresh(), pending + chunk + Concat(chunks))
  {
    hide FindBreak, Concat;
    var s, more := pending + chunk, Concat(chunks);
    var end := FindBreak(s, 0).value;
    assert ([chunk] + chunks)[1..] == chunks;
    assert (s + more)[..end] == s[..end] && [] + (s + more) == s + more;
    assert (s + more)[end + 4..] == s[end + 4..] + more;
    var head := parse(s[..end]);
    var st: State<Head> := State(pending, None, []);
    if head.Some? {
      var next := State([], head, [] + s[end + 4..]);
      assert Fed(parse, st, chunk) == Ok(next);
      BodyAddsUp(parse, next, chunks);
      assert [] + s[end + 4..] + more == [] + (s + more)[end + 4..];
    } else {
      assert Fed(parse, st, chunk) == Err;
    }
  }

  // ----- What is handed on

  /** The bytes of the line that ends a header: twice carriage return and newline. */
  ghost predicate EndsAt(s: Bytes, i: nat) { i + 4 <= |s| && s[i..i + 4] == [13, 10, 13, 10] }

  lemma FirstEnd(s: Bytes, n: nat)
    requires EndsAt(s, n) && forall i | 0 <= i < n :: !EndsAt(s, i)
    ensures FindBreak(s, 0) == Some(n)
  {
    assert BreakAt(s, n);
    forall i | 0 <= i < |s|
      ensures BreakAt(s, i) <==> EndsAt(s, i)
    {
    }
  }

  /** However much of the header came before: what stands before the first blank
      line is read as the header, and exactly what stands behind it is body. */
  lemma HeaderThenBody<Head>(parse: Bytes -> Option<Head>, st: State<Head>, chunk: Bytes, header: Bytes, body: Bytes)
    requires st.head.None? && st.pending + chunk == header + [13, 10, 13, 10] + body
    requires forall i | 0 <= i < |header| :: !EndsAt(st.pending + chunk, i)
    ensures Fed(parse, st, chunk) ==
            match parse(header)
            case Some(head) => Ok(State([], Some(head), st.body + body))
            case None => Err
  {
    hide FindBreak;
    var s, n := st.pending + chunk, |header|;
    assert s[n..n + 4] == [13, 10, 13, 10] && s[..n] == header && s[n + 4..] == body;
    FirstEnd(s, n);
  }

  /** Without a blank line nothing is handed on, and too long a wait fails. */
  lemma NothingBeforeTheEnd<Head>(parse: Bytes -> Option<Head>, st: State<Head>, chunk: Bytes)
    requires st.head.None? && forall i | 0 <= i <= |st.pending + chunk| :: !EndsAt(st.pending + chunk, i)
    ensures Fed(parse, st, chunk) ==
            if |st.pending + chunk| > 65536 then Err else Ok(State(st.pending + chunk, None, st.body))
  {
    var s := st.pending + chunk;
    forall i | 0 <= i < |s|
      ensures BreakAt(s, i) <==> EndsAt(s, i)
    {
    }
  }

  /** Any chunks of a response whose header ends within 65537 bytes hand on
      exactly its body. */
  lemma ResponseIsDecoded<Head>(parse: Bytes -> Option<Head>, chunks: seq<Bytes>, header: Bytes, body: Bytes)
    requires Concat(chunks) == header + [13, 10, 13, 10] + body && |header| + 4 <= 65537
    requires forall i | 0 <= i < |header| :: !EndsAt(Concat(chunks), i)
    ensures FedAll(parse, Fresh(), chunks) ==
            match parse(header)
            case Some(head) => Ok(State([], Some(head), body))
            case None => Err
  {
    hide FedAll, Fed;
    var s, n := Concat(chunks), |header|;
    assert s[n..n + 4] == [13, 10, 13, 10] && [] + s == s && [] + body == body;
    FirstEnd(s, n);
    hide FindBreak;
    ChunksAddUp(parse, [], chunks) by {
      NoBreakInNothing();
    }
    HeaderThenBody(parse, Fresh(), s, header, body);
  }

  lemma NoBreakInNothing()
    ensures FindBreak([], 0) == None
  {
  }

  /** Every way of cutting the stream gives the same result. */
  ghost predicate Independent<Head(!new)>(parse: Bytes -> Option<Head>, stream: Bytes) {
    forall chunks: seq<Bytes> ::
      Concat(chunks) == stream ==> FedAll(parse, Fresh(), chunks) == Fed(parse, Fresh(), stream)
  }

  /** The result depends on the cuts exactly when a readable header ends more
      than one byte past the limit. */
  lemma CutsMatterOnlyBeyondTheLimit<Head(!new)>(parse: Bytes -> Option<Head>, stream: Bytes)
    ensures Independent(parse, stream) <==> Harmless(parse, stream)
  {
    if Harmless(parse, stream) {
      forall chunks: seq<Bytes> | Concat(chunks) == stream
        ensures FedAll(parse, Fresh(), chunks) == Fed(parse, Fresh(), stream)
      {
        assert [] + Concat(chunks) == stream;
        ChunksAddUp(parse, [], chunks);
      }
    } else {
      var first, rest := stream[..LIMIT + 1], stream[LIMIT + 1..];
      assert [] + stream == stream;
      assert first + rest == stream;
      BreakStays(first, rest);
      CutAtTheLimit(parse, first, rest);
      hide FedAll, Concat, FindBreak;
      var chunks: seq<Bytes> := [first, rest];
      assert FedAll(parse, Fresh(), chunks) == Err;
    }
  }

  /** A first piece too long to hold a header is refused. */
  lemma CutAtTheLimit<Head>(parse: Bytes -> Option<Head>, first: Bytes, rest: Bytes)
    requires |first| == LIMIT + 1 && FindBreak(first, 0) == None
    ensures FedAll(parse, Fresh(), [first, rest]) == Err && Concat([first, rest]) == first + rest
  {
    hide FindBreak;
    var last: seq<Bytes> := [rest];
    assert [first, rest][1..] == last && |last[1..]| == 0;
    assert Concat(last) == rest + Concat(last[1..]) == rest;
    assert [] + first == first;
    assert Fed(parse, Fresh(), first) == Err;
  }

  class Decoder<Head> {
    const parse: Bytes -> Option<Head>
    var pending: Bytes
    var head: Option<Head>
    /** What the observer has been given. */
    var body: Bytes

    ghost function View(): State<Head>
      reads this
    {
      State(pending, head, body)
    }

    constructor (parse: Bytes -> Option<Head>)
      ensures this.parse == parse && View() == Fresh()
    {
      this.parse, pending, head, body := parse, [], None, [];
    }

    /** Hands bytes of the body to the observer, who may refuse them. */
    method Observe(bytes: Bytes) returns (taken: bool)
      modifies this`body
      ensures body == old(body) + bytes
    {
      body := body + bytes;
      taken := *;
    }

    /** Fails when the header is unreadable or too long, or the observer refuses
        what is in any case the next part of the body. */
    method Feed(bytes: Bytes) returns (ok: bool, refused: bool)
      modifies this
      ensures var fed := Fed(parse, old(View()), bytes);
              && ok == (fed.Ok? && !refused)
              && (fed.Ok? ==> View() == fed.value)
              && (refused ==> fed.Ok? && head.Some?)
    {
      hide FindBreak;
      if head.Some? {
        ok := Observe(bytes);
        return ok, !ok;
      }
      pending := pending + bytes;
      var end := Position(pending);
      if end.None? {
        return |pending| <= LIMIT, false;
      }
      var parsed := parse(pending[..end.value]);
      if parsed.None? {
        return false, false;
      }
      head := parsed;
      var rest := pending[end.value + 4..];
      pending := [];
      ok := Observe(rest);
      return ok, !ok;
    }

    method Position(s: Bytes) returns (r: Option<nat>)
      ensures r == FindBreak(s, 0)
    {
      var i := 0;
      while i < |s|
        invariant i <= |s| && FindBreak(s, 0) == FindBreak(s, i)
      {
        if BreakAt(s, i) {
          return Some(i);
        }
        i := i + 1;
      }
      return None;
    }
  }

  // ----- URLs on the wire

  const PERCENT: Byte := '%' as int
  const COLON: Byte := ':' as int
  const SLASH: Byte := '/' as int

  predicate IsHex(b: Byte) {
    '0' as int <= b <= '9' as int || 'A' as int <= b <= 'F' as int || 'a' as int <= b <= 'f' as int
  }

  function HexValue(b: Byte): (n: nat)
    requires IsHex(b)
    ensures n < 16
  {
    if b <= '9' as int then b - '0' as int else if b <= 'F' as int then b - 'A' as int + 10 else b - 'a' as int + 10
  }

  function HexDigit(n: nat): (b: Byte)
    requires n < 16
    ensures IsHex(b) && HexValue(b) == n
  {
    if n < 10 then '0' as int + n else 'A' as int + (n - 10)
  }

  predicate Escape(s: Bytes) { |s| >= 3 && s[0] == PERCENT && IsHex(s[1]) && IsHex(s[2]) }

  const REJECTED: Bytes := ['"' as int, '<' as int, '>' as int, '[' as int, '\\' as int, ']' as int,
                            '^' as int, '`' as int, '{' as int, '|' as int, '}' as int]

  /** Whether the first byte goes out as it is. */
  predicate Kept(s: Bytes)
    requires s != []
  {
    '!' as int <= s[0] <= '~' as int && s[0] !in REJECTED && (s[0] != PERCENT || Escape(s))
  }

  function Encoded(b: Byte): Bytes { [PERCENT, HexDigit(b / 16), HexDigit(b % 16)] }

  /** Path and query with every byte kept or escaped. */
  function Wire(s: Bytes): Bytes {
    if s == [] then [] else (if Kept(s) then [s[0]] else Encoded(s[0])) + Wire(s[1..])
  }

  /** What a percent-encoded text stands for (section 2.1 of RFC 3986). */
  function Decoded(s: Bytes): Bytes {
    if s == [] then []
    else if Escape(s) then [(HexValue(s[1]) * 16 + HexValue(s[2])) as Byte] + Decoded(s[3..])
    else [s[0]] + Decoded(s[1..])
  }

  predicate SchemeAt(s: Bytes, i: nat) { i + 3 <= |s| && s[i] == COLON && s[i + 1] == SLASH && s[i + 2] == SLASH }

  function FindScheme(s: Bytes, from: nat): (r: Option<nat>)
    requires from <= |s|
    ensures r.Some? ==> from <= r.value && SchemeAt(s, r.value)
    ensures forall i | from <= i < (if r.Some? then r.value else |s|) :: !SchemeAt(s, i)
    decreases |s| - from
  {
    if from == |s| then None else if SchemeAt(s, from) then Some(from) else FindScheme(s, from + 1)
  }

  predicate EndsOrigin(b: Byte) { b == SLASH || b == '?' as int || b == '#' as int }

  function FindEnd(s: Bytes, from: nat): (r: nat)
    requires from <= |s|
    ensures from <= r <= |s| && (r < |s| ==> EndsOrigin(s[r]))
    ensures forall i | from <= i < r :: !EndsOrigin(s[i])
    decreases |s| - from
  {
    if from == |s| || EndsOrigin(s[from]) then from else FindEnd(s, from + 1)
  }

  function OriginLength(url: Bytes): (n: nat)
    ensures n <= |url|
  {
    FindEnd(url, match FindScheme(url, 0) case Some(i) => i + 3 case None => 0)
  }

  function OnWire(url: Bytes): Bytes { url[..OriginLength(url)] + Wire(url[OriginLength(url)..]) }

  lemma HexIsKept(s: Bytes)
    requires s != [] && IsHex(s[0])
    ensures Kept(s)
  {
  }

  /** A valid escape passes unchanged. */
  lemma EscapePasses(s: Bytes)
    requires Escape(s)
    ensures Wire(s) == s[..3] + Wire(s[3..])
  {
    HexIsKept(s[1..]);
    HexIsKept(s[2..]);
    assert s[1..][1..] == s[2..] && s[2..][1..] == s[3..];
    assert Wire(s[2..]) == [s[2]] + Wire(s[3..]);
    assert Wire(s[1..]) == [s[1]] + Wire(s[2..]);
    assert Wire(s) == [s[0]] + Wire(s[1..]);
  }

  lemma {:induction false} WireKeepsMeaning(s: Bytes)
    ensures Decoded(Wire(s)) == Decoded(s)
    decreases |s|
  {
    if s == [] {
    } else if Escape(s) {
      EscapePasses(s);
      WireKeepsMeaning(s[3..]);
      assert (s[..3] + Wire(s[3..]))[3..] == Wire(s[3..]);
    } else {
      WireKeepsMeaning(s[1..]);
      PlainKeepsMeaning(s);
    }
  }

  lemma PlainKeepsMeaning(s: Bytes)
    requires s != [] && !Escape(s) && Decoded(Wire(s[1..])) == Decoded(s[1..])
    ensures Decoded(Wire(s)) == Decoded(s)
  {
    var rest := Wire(s[1..]);
    assert Wire(s) == (if Kept(s) then [s[0]] else Encoded(s[0])) + rest;
    assert Kept(s) ==> s[0] != PERCENT;
    hide Wire, Kept;
    assert s == [s[0]] + s[1..];
    DecodedPlain(s[0], s[1..]);
    if Kept(s) {
      DecodedPlain(s[0], rest);
    } else {
      DecodedEscape(s[0], rest);
    }
  }

  lemma DecodedPlain(b: Byte, rest: Bytes)
    requires b != PERCENT || !Escape([b] + rest)
    ensures Decoded([b] + rest) == [b] + Decoded(rest)
  {
    assert ([b] + rest)[1..] == rest;
  }

  lemma DecodedEscape(b: Byte, rest: Bytes)
    ensures Decoded(Encoded(b) + rest) == [b] + Decoded(rest)
  {
    var s := Encoded(b) + rest;
    assert s[1] == HexDigit(b / 16) && s[2] == HexDigit(b % 16) && s[3..] == rest;
  }

  lemma {:induction false} WireTwice(s: Bytes)
    ensures Wire(Wire(s)) == Wire(s)
    decreases |s|
  {
    if s == [] {
    } else if Escape(s) {
      EscapePasses(s);
      WireTwice(s[3..]);
      var out := s[..3] + Wire(s[3..]);
      EscapePasses(out);
      assert out[3..] == Wire(s[3..]) && out[..3] == s[..3];
    } else {
      var out, rest := Wire(s), Wire(s[1..]);
      WireTwice(s[1..]);
      if Kept(s) {
        assert out[1..] == rest && Kept(out);
      } else {
        EscapePasses(out);
        assert out[3..] == rest && out[..3] == Encoded(s[0]);
      }
    }
  }

  // ----- What goes out

  ghost predicate Hexadecimal(b: Byte) { 48 <= b <= 57 || 65 <= b <= 70 || 97 <= b <= 102 }

  /** Printable ASCII but for the double quote, angle, square and curly brackets,
      the backslash, the caret, the backquote and the bar. */
  ghost predicate MayGoOut(b: Byte) { 33 <= b <= 126 && b !in {34, 60, 62, 91, 92, 93, 94, 96, 123, 124, 125} }

  /** Only such bytes, and percent signs only before two hexadecimal digits. */
  ghost predicate Clean(s: Bytes) {
    && (forall i | 0 <= i < |s| :: MayGoOut(s[i]))
    && (forall i | 0 <= i < |s| && s[i] == 37 :: i + 2 < |s| && Hexadecimal(s[i + 1]) && Hexadecimal(s[i + 2]))
  }

  lemma EscapeMeans(s: Bytes)
    ensures Escape(s) <==> |s| > 2 && s[0] == 37 && Hexadecimal(s[1]) && Hexadecimal(s[2])
  {
  }

  lemma KeptGoesOut(s: Bytes)
    requires s != []
    ensures Kept(s) <==> MayGoOut(s[0]) && (s[0] == 37 ==> |s| > 2 && Hexadecimal(s[1]) && Hexadecimal(s[2]))
  {
  }

  lemma {:induction false} WireIsClean(s: Bytes)
    ensures Clean(Wire(s))
    decreases |s|
  {
    hide Kept;
    if s != [] {
      var rest := Wire(s[1..]);
      if Escape(s) {
        EscapePasses(s);
        WireIsClean(s[3..]);
        CleanEscape(s[0], s[1], s[2], Wire(s[3..]));
        assert s[..3] == [s[0], s[1], s[2]];
      } else {
        WireIsClean(s[1..]);
        KeptGoesOut(s);
        if Kept(s) {
          CleanByte(s[0], rest);
        } else {
          CleanEscape(PERCENT, HexDigit(s[0] / 16), HexDigit(s[0] % 16), rest);
        }
      }
    }
  }

  lemma CleanByte(b: Byte, rest: Bytes)
    requires Clean(rest) && MayGoOut(b) && b != 37
    ensures Clean([b] + rest)
  {
    var s := [b] + rest;
    forall i | 0 <= i < |s|
      ensures MayGoOut(s[i])
      ensures s[i] == 37 ==> i + 2 < |s| && Hexadecimal(s[i + 1]) && Hexadecimal(s[i + 2])
    {
      if i > 0 {
        assert s[i] == rest[i - 1];
      }
    }
  }

  lemma CleanEscape(p: Byte, a: Byte, b: Byte, rest: Bytes)
    requires Clean(rest) && p == 37 && IsHex(a) && IsHex(b)
    ensures Clean([p, a, b] + rest)
  {
    var s := [p, a, b] + rest;
    forall i | 0 <= i < |s|
      ensures MayGoOut(s[i])
      ensures s[i] == 37 ==> i + 2 < |s| && Hexadecimal(s[i + 1]) && Hexadecimal(s[i + 2])
    {
      if i > 2 {
        assert s[i] == rest[i - 3];
      }
    }
  }

  /** Exactly a text of that form goes out as it is. */
  lemma {:induction false} CleanGoesOut(s: Bytes)
    ensures Wire(s) == s <==> Clean(s)
    decreases |s|
  {
    if Clean(s) {
      CleanStays(s);
    }
    WireIsClean(s);
  }

  lemma {:induction false} CleanStays(s: Bytes)
    requires Clean(s)
    ensures Wire(s) == s
    decreases |s|
  {
    hide Kept;
    if s != [] {
      KeptGoesOut(s);
      forall i | 0 <= i < |s[1..]|
        ensures MayGoOut(s[1..][i])
        ensures s[1..][i] == 37 ==>
                  i + 2 < |s[1..]| && Hexadecimal(s[1..][i + 1]) && Hexadecimal(s[1..][i + 2])
      {
        assert s[1..][i] == s[i + 1];
      }
      CleanStays(s[1..]);
    }
  }

  /** Any other byte goes out as its two upper-case hexadecimal digits. */
  lemma OthersAreEscaped(b: Byte, rest: Bytes)
    requires !MayGoOut(b)
    ensures Wire([b] + rest) == [37, UpperDigit(b / 16), UpperDigit(b % 16)] + Wire(rest)
  {
    KeptGoesOut([b] + rest);
    UpperDigits(b / 16);
    UpperDigits(b % 16);
    hide Kept, HexDigit, UpperDigit, MayGoOut;
    assert ([b] + rest)[1..] == rest;
  }

  lemma UpperDigits(n: nat)
    requires n < 16
    ensures HexDigit(n) == UpperDigit(n)
  {
  }

  function UpperDigit(n: nat): Byte
    requires n < 16
  {
    [48, 49, 50, 51, 52, 53, 54, 55, 56, 57, 65, 66, 67, 68, 69, 70][n]
  }

  // ----- Where the origin ends

  ghost predicate Separator(s: Bytes, i: nat) { i + 3 <= |s| && s[i..i + 3] == [58, 47, 47] }

  /** The origin reaches up to the first slash, question mark or number sign
      behind the first `://`, or of the whole text when there is none. */
  lemma OriginMeans(url: Bytes, authority: nat)
    requires authority <= |url|
    requires if exists i: nat :: Separator(url, i) then
               && authority >= 3 && Separator(url, authority - 3)
               && forall i | 0 <= i < authority - 3 :: !Separator(url, i)
             else authority == 0
    ensures var n := OriginLength(url);
            && authority <= n <= |url|
            && (forall i | authority <= i < n :: url[i] !in {47, 63, 35})
            && (n < |url| ==> url[n] in {47, 63, 35})
  {
    forall i: nat
      ensures SchemeAt(url, i) <==> Separator(url, i)
    {
      if i + 3 <= |url| {
        assert url[i..i + 3] == [url[i], url[i + 1], url[i + 2]];
      }
    }
    assert forall i: nat | Separator(url, i) :: i < |url|;
  }

  /** The wire form has no scheme separator that was not there. */
  lemma {:induction false} NoNewScheme(s: Bytes, i: nat)
    requires SchemeAt(Wire(s), i)
    ensures exists j: nat :: SchemeAt(s, j)
    decreases |s|
  {
    var out := Wire(s);
    if i == 0 {
      SlashFirst(s);
      SlashFirst(s[1..]);
      SlashFirst(s[2..]);
      assert out[1..] == Wire(s[1..]) && s[1..][1..] == s[2..];
      assert SchemeAt(s, 0);
    } else {
      var n := if Kept(s) then 1 else 3;
      assert out[n..] == Wire(s[1..]);
      assert i >= n;
      NoNewScheme(s[1..], i - n);
      var j: nat :| SchemeAt(s[1..], j);
      assert SchemeAt(s, j + 1);
    }
  }

  /** A wire form that starts with a colon or slash comes from the same byte. */
  lemma SlashFirst(s: Bytes)
    ensures Wire(s) != [] && (Wire(s)[0] == COLON || EndsOrigin(Wire(s)[0])) ==>
              s != [] && s[0] == Wire(s)[0] && Kept(s) && Wire(s)[1..] == Wire(s[1..])
    ensures s != [] && EndsOrigin(s[0]) ==> Wire(s) != [] && Wire(s)[0] == s[0]
    ensures s == [] <==> Wire(s) == []
  {
  }

  /** A separator across the end of the origin was there already. */
  lemma SchemeAcross(origin: Bytes, rest: Bytes, i: nat)
    requires SchemeAt(origin + Wire(rest), i) && SLASH !in origin
    ensures FindScheme(origin + rest, 0).Some?
  {
    var n, out := |origin|, origin + Wire(rest);
    assert out[n..] == Wire(rest);
    if i >= n {
      assert SchemeAt(Wire(rest), i - n);
      NoNewScheme(rest, i - n);
      var j: nat :| SchemeAt(rest, j);
      assert SchemeAt(origin + rest, n + j);
    } else {
      assert forall k | 0 <= k < n :: out[k] == origin[k];
      assert Wire(rest)[0] == out[n] && Wire(rest)[1] == out[n + 1];
      SlashFirst(rest);
      SlashFirst(rest[1..]);
      assert SchemeAt(origin + rest, i);
    }
  }

  lemma SchemeStays(url: Bytes, out: Bytes, i: nat)
    requires FindScheme(url, 0) == Some(i) && i + 3 <= |out| && url[..i + 3] == out[..i + 3]
    ensures FindScheme(out, 0) == Some(i)
  {
    forall k: nat | k <= i
      ensures SchemeAt(out, k) <==> SchemeAt(url, k)
    {
      assert forall l | k <= l < k + 3 :: out[l] == out[..i + 3][l] == url[..i + 3][l] == url[l];
    }
    assert SchemeAt(out, i);
    assert forall k | 0 <= k < i :: !SchemeAt(url, k);
  }

  lemma SameScheme(url: Bytes)
    ensures var n := OriginLength(url);
            && n <= |OnWire(url)| && FindScheme(OnWire(url), 0) == FindScheme(url, 0)
  {
    hide Wire;
    var n, out := OriginLength(url), OnWire(url);
    var found := FindScheme(url, 0);
    if found.Some? {
      assert url[..found.value + 3] == url[..n][..found.value + 3] == out[..found.value + 3];
      SchemeStays(url, out, found.value);
    } else if FindScheme(out, 0).Some? {
      assert url == url[..n] + url[n..];
      SchemeAcross(url[..n], url[n..], FindScheme(out, 0).value);
    }
  }

  lemma OriginIsKept(url: Bytes)
    ensures OriginLength(OnWire(url)) == OriginLength(url)
    ensures OnWire(url)[..OriginLength(url)] == url[..OriginLength(url)]
    ensures OnWire(url)[OriginLength(url)..] == Wire(url[OriginLength(url)..])
  {
    var n, out := OriginLength(url), OnWire(url);
    SameScheme(url);
    var authority := match FindScheme(url, 0) case Some(i) => i + 3 case None => 0;
    SlashFirst(url[n..]);
    assert forall i | 0 <= i < n :: out[i] == url[i];
    assert out[n..] == Wire(url[n..]);
    assert FindEnd(out, authority) == n by {
      assert n < |out| ==> EndsOrigin(out[n]);
    }
  }

  /** The origin stays, path and query keep their meaning, and doing it again
      changes nothing. */
  lemma WireFormIsFaithful(url: Bytes)
    ensures var n := OriginLength(url);
            && OriginLength(OnWire(url)) == n
            && OnWire(url)[..n] == url[..n]
            && Decoded(OnWire(url)[n..]) == Decoded(url[n..])
            && Clean(OnWire(url)[n..]) && (OnWire(url) == url <==> Clean(url[n..]))
            && OnWire(OnWire(url)) == OnWire(url)
  {
    OriginIsKept(url);
    WireIsClean(url[OriginLength(url)..]);
    CleanGoesOut(url[OriginLength(url)..]);
    assert url == url[..OriginLength(url)] + url[OriginLength(url)..];
    WireKeepsMeaning(url[OriginLength(url)..]);
    WireTwice(url[OriginLength(url)..]);
  }

  /** The address as it goes out: behind the origin only clean bytes, and the
      address itself exactly when these were clean. */
  method WireUrl(url: Bytes) returns (wire: Bytes)
    ensures wire == OnWire(url)
    ensures OriginLength(url) <= |wire| && wire[..OriginLength(url)] == url[..OriginLength(url)]
    ensures Clean(wire[OriginLength(url)..])
    ensures wire == url <==> Clean(url[OriginLength(url)..])
    ensures Decoded(wire[OriginLength(url)..]) == Decoded(url[OriginLength(url)..])
  {
    WireFormIsFaithful(url);
    hide Clean, Decoded, OriginLength, Kept, Encoded;
    var start := OriginLength(url);
    var bytes := url[start..];
    wire := url[..start];
    var index := 0;
    assert bytes[0..] == bytes;
    while index < |bytes|
      invariant index <= |bytes|
      invariant OnWire(url) == wire + Wire(bytes[index..])
    {
      var s := bytes[index..];
      assert s[1..] == bytes[index + 1..];
      ghost var rest := Wire(s[1..]);
      ghost var before := wire;
      wire := wire + if Kept(s) then [s[0]] else Encoded(s[0]);
      assert wire + rest == before + ((if Kept(s) then [s[0]] else Encoded(s[0])) + rest);
      index := index + 1;
    }
    assert wire + [] == wire;
  }
}
