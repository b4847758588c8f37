/** Text as Unicode scalars: trimming and searching. */
module Strings {
  import opened Wrappers

  predicate IsWhitespace(c: char) {
    || '\U{9}' <= c <= '\U{D}'
    || c in {' ', '\U{85}', '\U{A0}', '\U{1680}', '\U{2028}', '\U{2029}', '\U{202F}', '\U{205F}', '\U{3000}'}
    || '\U{2000}' <= c <= '\U{200A}'
  }

  function TrimStart(text: string): string {
    if text != [] && IsWhitespace(text[0]) then TrimStart(text[1..]) else text
  }

  function TrimEnd(text: string): (trimmed: string)
    ensures trimmed <= text && (trimmed != [] ==> !IsWhitespace(trimmed[|trimmed| - 1]))
    ensures forall k | |trimmed| <= k < |text| :: IsWhitespace(text[k])
  {
    if text != [] && IsWhitespace(text[|text| - 1]) then TrimEnd(text[..|text| - 1]) else text
  }

  /** Bytes of the text in UTF-8. */
  function ByteLength(text: string): nat {
    if text == [] then 0
    else
      var c := text[0] as int;
      (if c < 0x80 then 1 else if c < 0x800 then 2 else if c < 0x1_0000 then 3 else 4) + ByteLength(text[1..])
  }

  predicate OccursAt(text: string, pattern: string, k: nat) {
    k + |pattern| <= |text| && text[k..k + |pattern|] == pattern
  }

  predicate Contains(text: string, pattern: string) {
    exists k: nat | k <= |text| :: OccursAt(text, pattern, k)
  }

  /** The first occurrence at or after `k`. */
  function Find(text: string, pattern: string, k: nat): (at: Option<nat>)
    requires k <= |text|
    ensures at.Some? ==> k <= at.value <= |text| && OccursAt(text, pattern, at.value)
    ensures at.Some? ==> forall i | k <= i < at.value :: !OccursAt(text, pattern, i)
    ensures at.None? ==> forall i | k <= i <= |text| :: !OccursAt(text, pattern, i)
    decreases |text| - k
  {
    if OccursAt(text, pattern, k) then Some(k)
    else if k == |text| then None
    else Find(text, pattern, k + 1)
  }

  lemma {:induction false} TrimsAlike(text: string, blank: string)
    requires forall k | 0 <= k < |blank| :: IsWhitespace(blank[k])
    ensures TrimEnd(text + blank) == TrimEnd(text)
    decreases |blank|
  {
    if blank == [] {
      assert text + blank == text;
    } else {
      TrimsAlike(text, blank[..|blank| - 1]);
      assert (text + blank)[..|text + blank| - 1] == text + blank[..|blank| - 1];
    }
  }
}
