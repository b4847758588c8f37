/**
  What an ignore file says, read straight from its text: how each line is
  written, which lines there are, and which of them decides a path.
 */
module RuleLines {
  import opened Wrappers
  import opened ByteText
  import opened Glob
  import opened Tokens
  import opened Patterns
  import opened IgnoreRules

  // ----- How a rule is written

  datatype Writing = Writing(negated: bool, rooted: bool, glob: Bytes, directoryOnly: bool, blanks: nat)

  function Blanks(n: nat): Bytes { seq(n, _ => 32) }

  function Maybe(written: bool, b: Byte): Bytes { if written then [b] else [] }

  /** `!` before the rule, a slash before its glob, one behind it. */
  function Body(r: Writing): Bytes {
    Maybe(r.negated, 33) + (Maybe(r.rooted, 47) + (r.glob + Maybe(r.directoryOnly, 47)))
  }

  /** The text ends in no blank that would be dropped. */
  predicate Trimmed(text: Bytes) {
    text != [] && text[|text| - 1] == 32 ==> |text| > 1 && text[|text| - 2] == 92
  }

  /** Nothing in the line would be read in another way: a slash or `!` that is
      part of the glob, a comment, a blank behind a backslash. */
  predicate Clear(r: Writing) {
    && r.glob != []
    && (!r.rooted ==> r.glob[0] != 47)
    && (!r.directoryOnly ==> r.glob[|r.glob| - 1] != 47)
    && Body(r) != [] && Body(r)[0] != 35 && (!r.negated ==> Body(r)[0] != 33)
    && Trimmed(Body(r)) && (r.blanks > 0 ==> Body(r)[|Body(r)| - 1] != 92)
  }

  /** The line is this rule, with blanks behind it. */
  predicate IsLine(line: Bytes, r: Writing) { Clear(r) && line == Body(r) + Blanks(r.blanks) }

  lemma MoreBlanks(text: Bytes, n: nat)
    requires n > 0
    ensures var line := text + Blanks(n);
            && |line| == |text| + n && text + Blanks(n - 1) <= line && line[|line| - 1] == 32
            && (|line| > 1 ==> line[|line| - 2] == if n > 1 then 32 else text[|text| - 1])
  {
  }

  lemma {:induction false} BlanksAreTrimmed(text: Bytes, n: nat)
    requires Trimmed(text) && (n > 0 && text != [] ==> text[|text| - 1] != 92)
    ensures TrimmedEnd(text + Blanks(n), |text| + n) == |text|
    decreases n
  {
    hide Blanks;
    BlanksCount(n);
    if n > 0 {
      BlanksCount(n - 1);
      BlanksAreTrimmed(text, n - 1);
      MoreBlanks(text, n);
      TrimmedEndOfPrefix(text + Blanks(n - 1), text + Blanks(n), |text| + n - 1);
    }
  }

  lemma {:induction false} TrimmedEndOfPrefix(a: Bytes, b: Bytes, end: nat)
    requires a <= b && end <= |a|
    ensures TrimmedEnd(a, end) == TrimmedEnd(b, end)
    decreases end
  {
    if end > 0 {
      TrimmedEndOfPrefix(a, b, end - 1);
    }
  }

  /** What stands before the blanks, and how many there are. */
  lemma LineIsTrimmed(line: Bytes) returns (text: Bytes, n: nat)
    ensures line == text + Blanks(n) && Trimmed(text) && (n > 0 && text != [] ==> text[|text| - 1] != 92)
    ensures text == line[..TrimmedEnd(line, |line|)]
  {
    n := |line| - TrimmedEnd(line, |line|);
    text := line[..|line| - n];
    BlankBehind(line, |line|);
    assert line == text + Blanks(n);
  }

  lemma {:induction false} BlankBehind(line: Bytes, end: nat)
    requires end <= |line|
    ensures var n := TrimmedEnd(line, end); n < end && n > 0 ==> line[n - 1] != 92
    decreases end
  {
    if end > 0 {
      BlankBehind(line, end - 1);
    }
  }

  // ----- Reading a line

  lemma FrontIsRead(has: bool, b: Byte, rest: Bytes)
    requires rest != [] && (!has ==> rest[0] != b)
    ensures var text := Maybe(has, b) + rest;
            text != [] && (text[0] == b <==> has) && (if has then text[1..] else text) == rest
  {
    assert !has ==> Maybe(has, b) + rest == rest;
  }

  lemma BackIsRead(rest: Bytes, has: bool, b: Byte)
    requires rest != [] && (!has ==> rest[|rest| - 1] != b)
    ensures var text := rest + Maybe(has, b);
            && text != [] && (text[|text| - 1] == b <==> has)
            && (if has then text[..|text| - 1] else text) == rest
  {
    assert !has ==> rest + Maybe(has, b) == rest;
  }

  /** The parts of a text that is already trimmed. */
  lemma PartsOfBody(r: Writing)
    requires Clear(r)
    ensures PatternParts(Body(r)) == Some((r.negated, r.rooted || 47 in r.glob, r.directoryOnly, r.glob))
  {
    var inner := Maybe(r.rooted, 47) + r.glob;
    var after := Maybe(r.rooted, 47) + (r.glob + Maybe(r.directoryOnly, 47));
    Associate(Maybe(r.rooted, 47), r.glob, Maybe(r.directoryOnly, 47));
    LastOf(Maybe(r.rooted, 47), r.glob);
    FirstOfBody(r, after);
    SlashInside(r.rooted, r.glob);
    assert Body(r) == Maybe(r.negated, 33) + after;
    hide *;
    FrontIsRead(r.rooted, 47, r.glob);
    BackIsRead(inner, r.directoryOnly, 47);
    FrontIsRead(r.negated, 33, after);
    PartsAre(Body(r), r.negated, after, r.directoryOnly, inner, r.glob);
  }

  lemma PartsAre(p: Bytes, negated: bool, after: Bytes, directoryOnly: bool, inner: Bytes, glob: Bytes)
    requires p != [] && (negated <==> p[0] == 33) && (if negated then p[1..] else p) == after
    requires after != [] && (directoryOnly <==> after[|after| - 1] == 47)
    requires (if directoryOnly then after[..|after| - 1] else after) == inner && inner != []
    requires (if inner[0] == 47 then inner[1..] else inner) == glob && glob != []
    ensures PatternParts(p) == Some((negated, 47 in inner, directoryOnly, glob))
  {
  }

  lemma FirstOfBody(r: Writing, after: Bytes)
    requires Clear(r) && Body(r) == Maybe(r.negated, 33) + after
    ensures !r.negated ==> after == [] || after[0] != 33
    ensures r.glob != [] && (!r.rooted ==> r.glob[0] != 47) && (!r.directoryOnly ==> r.glob[|r.glob| - 1] != 47)
  {
    assert !r.negated ==> Maybe(r.negated, 33) + after == after;
  }

  lemma SlashInside(has: bool, glob: Bytes)
    ensures 47 in Maybe(has, 47) + glob <==> has || 47 in glob
  {
  }

  /** A rule reads as it is written. */
  lemma WritingIsRead(line: Bytes, r: Writing)
    requires IsLine(line, r)
    ensures RuleParts(line) == Some((r.negated, r.rooted || 47 in r.glob, r.directoryOnly, r.glob))
  {
    hide Body, TrimmedEnd, Blanks, PatternParts;
    BlanksBehind(Body(r), r.blanks);
    PartsOfBody(r);
  }

  lemma BlanksBehind(text: Bytes, n: nat)
    requires Trimmed(text) && (n > 0 && text != [] ==> text[|text| - 1] != 92)
    ensures var line := text + Blanks(n);
            line[..TrimmedEnd(line, |line|)] == text && (text != [] ==> line != [] && line[0] == text[0])
  {
    hide Blanks, TrimmedEnd;
    BlanksCount(n);
    BlanksAreTrimmed(text, n);
    assert (text + Blanks(n))[..|text|] == text;
  }

  lemma BlanksCount(n: nat)
    ensures |Blanks(n)| == n
  {
  }

  /** And every line read as a rule is written so. */
  lemma ReadIsWritten(line: Bytes) returns (r: Writing)
    requires RuleParts(line).Some?
    ensures IsLine(line, r)
    ensures RuleParts(line) == Some((r.negated, r.rooted || 47 in r.glob, r.directoryOnly, r.glob))
  {
    hide Body, TrimmedEnd, Blanks, RuleParts, PatternParts;
    var text, n := LineIsTrimmed(line);
    TextOfRule(line, text);
    r := WritingOf(text, n);
    GlobIsThere(r);
    WritingIsRead(line, r);
  }

  lemma TextOfRule(line: Bytes, text: Bytes)
    requires RuleParts(line).Some? && text == line[..TrimmedEnd(line, |line|)]
    ensures text != [] && line[0] == text[0] && text[0] != 35 && PatternParts(text) == RuleParts(line)
  {
    hide TrimmedEnd, PatternParts;
    EmptyPattern();
  }

  lemma EmptyPattern()
    ensures PatternParts([]) == None
  {
  }

  lemma GlobIsThere(r: Writing)
    requires PatternParts(Body(r)).Some?
    ensures r.glob != []
  {
    if r.glob == [] {
      assert Body(r) in {[], [33], [47], [33, 47], [47, 47], [33, 47, 47]};
      NoGlob(Body(r));
    }
  }

  lemma WritingOf(text: Bytes, n: nat) returns (r: Writing)
    requires text != []
    ensures Body(r) == text && r.blanks == n
    ensures !r.rooted && r.glob != [] ==> r.glob[0] != 47
    ensures !r.directoryOnly && r.glob != [] ==> r.glob[|r.glob| - 1] != 47
    ensures !r.negated ==> text[0] != 33
  {
    hide Maybe;
    var negated, after := Front(text, 33);
    var directoryOnly, inner := Back(after, 47);
    var rooted, glob := Front(inner, 47);
    r := Writing(negated, rooted, glob, directoryOnly, n);
    Associate(Maybe(rooted, 47), glob, Maybe(directoryOnly, 47));
    if glob != [] && !directoryOnly {
      LastOf(Maybe(rooted, 47), glob);
    }
  }

  lemma LastOf(a: Bytes, b: Bytes)
    requires b != []
    ensures a + b != [] && (a + b)[|a + b| - 1] == b[|b| - 1]
  {
  }

  lemma Front(text: Bytes, b: Byte) returns (has: bool, after: Bytes)
    ensures text == Maybe(has, b) + after && (!has ==> text == after)
    ensures has <==> text != [] && text[0] == b
  {
    has := text != [] && text[0] == b;
    after := if has then text[1..] else text;
  }

  lemma Back(text: Bytes, b: Byte) returns (has: bool, before: Bytes)
    ensures text == before + Maybe(has, b) && (!has ==> text == before)
    ensures has <==> text != [] && text[|text| - 1] == b
  {
    has := text != [] && text[|text| - 1] == b;
    before := if has then text[..|text| - 1] else text;
  }

  /** No rule: an empty line, a comment, and a line without a glob. */
  lemma NoRule(line: Bytes)
    ensures RuleParts(line) == None <==>
            || line == [] || line[0] == 35
            || exists n, text :: line == text + Blanks(n)
                                 && text in {[], [33], [47], [33, 47], [47, 47], [33, 47, 47]}
  {
    hide TrimmedEnd, Blanks, RuleParts, PatternParts;
    if line == [] || line[0] == 35 {
      assert RuleParts(line) == None by { NothingOrComment(line); }
    } else {
      if RuleParts(line) == None {
        var text, n := LineIsTrimmed(line);
        BareLine(line, text);
      }
      forall n, text | line == text + Blanks(n) && text in {[], [33], [47], [33, 47], [47, 47], [33, 47, 47]}
        ensures RuleParts(line) == None
      {
        BlanksBehind(text, n);
        BareLine(line, text);
      }
    }
  }

  lemma NothingOrComment(line: Bytes)
    requires line == [] || line[0] == 35
    ensures RuleParts(line) == None
  {
  }

  lemma BareLine(line: Bytes, text: Bytes)
    requires line != [] && line[0] != 35 && text == line[..TrimmedEnd(line, |line|)]
    ensures RuleParts(line) == None <==> text in {[], [33], [47], [33, 47], [47, 47], [33, 47, 47]}
  {
    hide TrimmedEnd, PatternParts;
    NoGlob(text);
  }

  lemma NoGlob(text: Bytes)
    ensures PatternParts(text) == None <==> text in {[], [33], [47], [33, 47], [47, 47], [33, 47, 47]}
  {
    assert |text| == 1 ==> text == [text[0]];
    assert |text| == 2 ==> text == [text[0], text[1]];
    assert |text| == 3 ==> text == [text[0], text[1], text[2]];
    assert PatternParts(text) == None ==> |text| <= 3;
  }

  /** A glob with nothing special about it, alone on its line. */
  predicate Ordinary(glob: Bytes) {
    && glob != [] && glob[0] !in {33, 35} && 47 !in glob
    && glob[|glob| - 1] != 32
  }

  lemma OrdinaryIsLine(negated: bool, rooted: bool, glob: Bytes, directoryOnly: bool)
    requires Ordinary(glob)
    ensures var r := Writing(negated, rooted, glob, directoryOnly, 0);
            IsLine(Maybe(negated, 33) + (Maybe(rooted, 47) + (glob + Maybe(directoryOnly, 47))), r)
  {
    var r := Writing(negated, rooted, glob, directoryOnly, 0);
    assert Blanks(0) == [] && Body(r) + [] == Body(r);
    LastOf(Maybe(rooted, 47), glob + Maybe(directoryOnly, 47));
    LastOf(Maybe(negated, 33), Maybe(rooted, 47) + (glob + Maybe(directoryOnly, 47)));
  }

  /** Alone it is a rule for any entry of a matching name; `!` before it makes
      it keep entries, a slash before it ties it to its directory, and a slash
      behind it asks for a directory. */
  lemma OrdinaryLines(glob: Bytes)
    requires Ordinary(glob)
    ensures RuleParts(glob) == Some((false, false, false, glob))
    ensures RuleParts([33] + glob) == Some((true, false, false, glob))
    ensures RuleParts([47] + glob) == Some((false, true, false, glob))
    ensures RuleParts(glob + [47]) == Some((false, false, true, glob))
  {
    hide RuleParts, IsLine, Ordinary;
    OrdinaryIsRead(false, false, glob, false);
    OrdinaryIsRead(true, false, glob, false);
    OrdinaryIsRead(false, true, glob, false);
    OrdinaryIsRead(false, false, glob, true);
    assert [] + ([] + (glob + [])) == glob && [33] + ([] + (glob + [])) == [33] + glob;
    assert [] + ([47] + (glob + [])) == [47] + glob && [] + ([] + (glob + [47])) == glob + [47];
  }

  lemma OrdinaryIsRead(negated: bool, rooted: bool, glob: Bytes, directoryOnly: bool)
    requires Ordinary(glob)
    ensures RuleParts(Maybe(negated, 33) + (Maybe(rooted, 47) + (glob + Maybe(directoryOnly, 47)))) ==
            Some((negated, rooted, directoryOnly, glob))
  {
    OrdinaryIsLine(negated, rooted, glob, directoryOnly);
    hide RuleParts, IsLine, Maybe;
    WritingIsRead(Maybe(negated, 33) + (Maybe(rooted, 47) + (glob + Maybe(directoryOnly, 47))),
                  Writing(negated, rooted, glob, directoryOnly, 0));
  }

  // ----- What a line says

  /** The line has a rule for this entry: to ignore it, or to keep it. */
  ghost predicate Says(w: bool, line: Bytes, below: Bytes, q: Query, ignored: bool) {
    exists r ::
      && IsLine(line, r) && ignored == !r.negated && (r.directoryOnly ==> q.directory)
      && Describes(w, true, r.glob, if r.rooted || 47 in r.glob then below else q.name)
  }

  lemma LineSays(w: bool, line: Bytes, below: Bytes, q: Query, ignored: bool)
    ensures Says(w, line, below, q, ignored) <==>
            var rule := RuleOf(w, line);
            rule.Some? && Applies(w, rule.value, below, q) && ignored == !rule.value.negated
  {
    hide IsLine, RuleParts, Describes, Matches, TokensFrom;
    forall r | IsLine(line, r)
      ensures RuleParts(line) == Some((r.negated, r.rooted || 47 in r.glob, r.directoryOnly, r.glob))
    {
      WritingIsRead(line, r);
    }
    if RuleParts(line).Some? {
      var r := ReadIsWritten(line);
      TokensMean(w, true, r.glob);
      assert IsLine(line, r);
    }
  }

  /** A name on a line of its own ignores the entries of that name, and no
      others; `!` before it keeps them. */
  lemma NameSays(glob: Bytes, below: Bytes, q: Query, ignored: bool)
    requires Ordinary(glob) && Plain(glob)
    ensures Says(false, glob, below, q, ignored) <==> ignored && q.name == glob
    ensures Says(false, [33] + glob, below, q, ignored) <==> !ignored && q.name == glob
    ensures Says(false, [47] + glob, below, q, ignored) <==> ignored && below == glob
    ensures Says(false, glob + [47], below, q, ignored) <==> ignored && q.directory && q.name == glob
  {
    hide Says, RuleParts, Ordinary, Plain, Matches, TokensFrom, Describes;
    OrdinaryLines(glob);
    LineSays(false, glob, below, q, ignored);
    LineSays(false, [33] + glob, below, q, ignored);
    LineSays(false, [47] + glob, below, q, ignored);
    LineSays(false, glob + [47], below, q, ignored);
    TokensMean(false, true, glob);
    PlainMeansEqual(true, glob, q.name);
    PlainMeansEqual(true, glob, below);
  }

  // ----- The lines of a file

  predicate LineEnds(line: Bytes, ending: Bytes, rest: Bytes) {
    && 10 !in line
    && (|| ending == [13, 10]
        || (ending == [10] && (line == [] || line[|line| - 1] != 13))
        || (ending == [] && line != [] && rest == []))
  }

  /** The text is these lines, each with its ending. */
  ghost predicate Spells(lines: seq<Bytes>, text: Bytes)
    decreases |lines|
  {
    if lines == [] then text == []
    else exists ending, rest ::
      && text == lines[0] + (ending + rest) && LineEnds(lines[0], ending, rest)
      && Spells(lines[1..], rest)
  }

  lemma {:induction false} LineEndIs(line: Bytes, after: Bytes)
    requires 10 !in line && (after == [] || after[0] == 10)
    ensures LineEnd(line + after) == |line|
    decreases |line|
  {
    if line != [] {
      LineEndIs(line[1..], after);
      assert (line + after)[1..] == line[1..] + after;
    }
  }

  function RuleList(w: bool, line: Bytes): seq<Rule> {
    match RuleOf(w, line) case Some(rule) => [rule] case None => []
  }

  function RulesOf(w: bool, lines: seq<Bytes>): seq<Rule> {
    if lines == [] then [] else RulesOf(w, lines[..|lines| - 1]) + RuleList(w, lines[|lines| - 1])
  }

  lemma {:induction false} FirstLine(w: bool, lines: seq<Bytes>)
    requires lines != []
    ensures RulesOf(w, lines) == RuleList(w, lines[0]) + RulesOf(w, lines[1..])
    decreases |lines|
  {
    hide RuleList;
    var n := |lines| - 1;
    if n > 0 {
      FirstLine(w, lines[..n]);
      assert lines[..n][1..] == lines[1..][..n - 1];
    } else {
      assert lines[..0] == [] && lines[1..] == [];
    }
  }

  /** One line with its ending is read as that line. */
  lemma LineIsRead(w: bool, line: Bytes, ending: Bytes, rest: Bytes)
    requires LineEnds(line, ending, rest)
    ensures Rules(w, line + (ending + rest)) == RuleList(w, line) + Rules(w, rest)
  {
    hide Rules, RuleOf, LineEnd, RuleList;
    var text := line + (ending + rest);
    LineParts(line, ending, rest);
    EndIsRead(line, ending, rest);
    FirstRules(w, text, if ending == [13, 10] then |line| + 1 else |line|);
  }

  lemma EndIsRead(line: Bytes, ending: Bytes, rest: Bytes)
    requires LineEnds(line, ending, rest)
    ensures LineEnd(line + (ending + rest)) == if ending == [13, 10] then |line| + 1 else |line|
  {
    hide LineEnd;
    if ending == [13, 10] {
      Associate(line, [13], [10] + rest);
      Associate([13], [10], rest);
      assert [13] + [10] == [13, 10];
      LineEndIs(line + [13], [10] + rest);
    } else {
      LineEndIs(line, ending + rest);
    }
  }

  lemma FirstRules(w: bool, text: Bytes, n: nat)
    requires text != [] && n == LineEnd(text)
    ensures var line := if 0 < n < |text| && text[n - 1] == 13 then text[..n - 1] else text[..n];
            Rules(w, text) == RuleList(w, line) + Rules(w, if n < |text| then text[n + 1..] else [])
  {
    hide RuleOf, LineEnd;
  }

  lemma LineParts(line: Bytes, ending: Bytes, rest: Bytes)
    ensures var text := line + (ending + rest);
            && |text| == |line| + |ending| + |rest| && text[..|line|] == line
            && (line != [] ==> text[|line| - 1] == line[|line| - 1])
            && text[|line| + |ending|..] == rest
            && forall k | 0 <= k < |ending| :: text[|line| + k] == ending[k]
  {
  }

  lemma {:induction false} LinesAreRead(w: bool, lines: seq<Bytes>, text: Bytes)
    requires Spells(lines, text)
    ensures Rules(w, text) == RulesOf(w, lines)
    decreases |lines|
  {
    hide RuleList, RuleOf, LineEnds;
    if lines != [] {
      var ending, rest :| text == lines[0] + (ending + rest) && LineEnds(lines[0], ending, rest)
                          && Spells(lines[1..], rest);
      hide Rules, RulesOf;
      LinesAreRead(w, lines[1..], rest);
      LineIsRead(w, lines[0], ending, rest);
      FirstLine(w, lines);
    }
  }

  /** Every text has its lines. */
  lemma {:induction false} LinesOf(text: Bytes) returns (lines: seq<Bytes>)
    ensures Spells(lines, text)
    decreases |text|
  {
    lines := [];
    if text != [] {
      var n := LineEnd(text);
      var line, ending, rest := CutLine(text);
      var more := LinesOf(rest);
      lines := [line] + more;
      assert lines[1..] == more;
      assert text == lines[0] + (ending + rest);
    }
  }

  lemma CutLine(text: Bytes) returns (line: Bytes, ending: Bytes, rest: Bytes)
    requires text != []
    ensures text == line + (ending + rest) && LineEnds(line, ending, rest) && |rest| < |text|
  {
    var n := LineEnd(text);
    NoBreak(text);
    if n == |text| {
      line, ending, rest := text, [], [];
    } else {
      rest := text[n + 1..];
      if n > 0 && text[n - 1] == 13 {
        line, ending := text[..n - 1], [13, 10];
      } else {
        line, ending := text[..n], [10];
      }
    }
    assert text == line + (ending + rest);
  }

  lemma {:induction false} NoBreak(text: Bytes)
    ensures 10 !in text[..LineEnd(text)] && (LineEnd(text) < |text| ==> text[LineEnd(text)] == 10)
    decreases |text|
  {
    if text != [] && text[0] != 10 {
      NoBreak(text[1..]);
      assert text[..LineEnd(text)] == [text[0]] + text[1..][..LineEnd(text[1..])];
    }
  }

  // ----- What a file says

  ghost predicate LastToSay(w: bool, lines: seq<Bytes>, k: int, below: Bytes, q: Query, ignored: bool) {
    && 0 <= k < |lines| && Says(w, lines[k], below, q, ignored)
    && forall l, other | k < l < |lines| :: !Says(w, lines[l], below, q, other)
  }

  /** The last line with a rule for the entry decides. */
  ghost predicate FileSays(w: bool, text: Bytes, below: Bytes, q: Query, ignored: bool) {
    exists lines, k :: Spells(lines, text) && LastToSay(w, lines, k, below, q, ignored)
  }

  lemma {:induction false} LinesDecide(w: bool, lines: seq<Bytes>, below: Bytes, q: Query, ignored: bool)
    ensures Decision(w, RulesOf(w, lines), below, q) == Some(ignored) <==>
            exists k :: LastToSay(w, lines, k, below, q, ignored)
    decreases |lines|
  {
    hide Says, RuleOf, Applies;
    if lines != [] {
      var n := |lines| - 1;
      var last, before := lines[n], lines[..n];
      LinesDecide(w, before, below, q, ignored);
      forall other { LineSays(w, last, below, q, other); }
      OneMoreRule(w, RulesOf(w, before), RuleOf(w, last), below, q);
      LastOfMore(w, lines, below, q, ignored);
    }
  }

  lemma LastOfMore(w: bool, lines: seq<Bytes>, below: Bytes, q: Query, ignored: bool)
    requires lines != []
    ensures var last, before := lines[|lines| - 1], lines[..|lines| - 1];
            (exists k :: LastToSay(w, lines, k, below, q, ignored)) <==>
            if Says(w, last, below, q, true) || Says(w, last, below, q, false) then Says(w, last, below, q, ignored)
            else exists k :: LastToSay(w, before, k, below, q, ignored)
  {
    hide Says;
    var n := |lines| - 1;
    var last, before := lines[n], lines[..n];
    if Says(w, last, below, q, ignored) {
      assert LastToSay(w, lines, n, below, q, ignored);
    }
    if k :| LastToSay(w, before, k, below, q, ignored) {
      if !Says(w, last, below, q, true) && !Says(w, last, below, q, false) {
        assert lines[k] == before[k];
        assert LastToSay(w, lines, k, below, q, ignored);
      }
    }
    if k :| LastToSay(w, lines, k, below, q, ignored) {
      if k < n {
        assert lines[k] == before[k];
        assert LastToSay(w, before, k, below, q, ignored);
      }
    }
  }

  lemma OneMoreRule(w: bool, rules: seq<Rule>, more: Option<Rule>, below: Bytes, q: Query)
    ensures Decision(w, rules + (match more case Some(rule) => [rule] case None => []), below, q) ==
            if more.Some? && Applies(w, more.value, below, q) then Some(!more.value.negated)
            else Decision(w, rules, below, q)
  {
    hide Applies;
    if more.Some? {
      assert (rules + [more.value])[..|rules|] == rules;
    } else {
      assert rules + [] == rules;
    }
  }

  /** What a rule file decides is what its text says. */
  lemma FileDecides(w: bool, text: Bytes, below: Bytes, q: Query, ignored: bool)
    ensures Decision(w, Rules(w, text), below, q) == Some(ignored) <==> FileSays(w, text, below, q, ignored)
  {
    hide Decision, Rules, Spells, LastToSay, RulesOf;
    forall lines | Spells(lines, text) ensures Rules(w, text) == RulesOf(w, lines) {
      LinesAreRead(w, lines, text);
    }
    forall lines { LinesDecide(w, lines, below, q, ignored); }
    var lines := LinesOf(text);
    assert Spells(lines, text);
  }

  // ----- What all files say of a path

  /** The directory lies above the path, which is `below` as seen from it. */
  predicate Inside(path: Bytes, d: Bytes, below: Bytes) {
    if d == [] then below == path else path == d + ([47] + below)
  }

  /** The last segment of the path. */
  ghost predicate LastSegment(path: Bytes, name: Bytes) {
    47 !in name && (path == name || exists before :: path == before + ([47] + name))
  }

  lemma NameIsLastSegment(path: Bytes, name: Bytes)
    requires LastSegment(path, name)
    ensures Name(path) == name
  {
    hide LastSlash;
    if path != name {
      var before :| path == before + ([47] + name);
      SlashIsLast(before, name);
    }
  }

  lemma {:induction false} SlashIsLast(before: Bytes, name: Bytes)
    requires 47 !in name
    ensures LastSlash(before + ([47] + name)) == Some(|before|)
    ensures (before + ([47] + name))[|before| + 1..] == name
    decreases |name|
  {
    var path := before + ([47] + name);
    if name != [] {
      var n := |name| - 1;
      assert name[n] in name;
      SlashIsLast(before, name[..n]);
      assert path[..|path| - 1] == before + ([47] + name[..n]);
    }
  }

  lemma {:induction false} SomeSlash(path: Bytes, k: nat)
    requires k < |path| && path[k] == 47
    ensures LastSlash(path).Some? && LastSlash(path).value >= k
    decreases |path|
  {
    if k < |path| - 1 {
      SomeSlash(path[..|path| - 1], k);
    }
  }

  /** The directories above a path are those the search goes through, the
      nearer ones first. */
  lemma {:induction false} AncestorsAreAbove(path: Bytes, d: Bytes)
    ensures d in Ancestors(path) <==> exists below :: Inside(path, d, below)
    decreases |path|
  {
    hide LastSlash, Inside;
    var parent := Parent(path);
    TopIsAbove(path);
    if d != [] {
      NextAbove(path, d);
      if parent != [] {
        AncestorsAreAbove(parent, d);
      } else {
        forall below { NothingAboveTop(d, below); }
      }
    } else if parent != [] {
      AncestorsAreAbove(parent, d);
      TopIsAbove(parent);
    }
  }

  lemma NothingAboveTop(d: Bytes, below: Bytes)
    requires d != []
    ensures !Inside([], d, below)
  {
  }

  lemma TopIsAbove(path: Bytes)
    ensures exists below :: Inside(path, [], below)
  {
    assert Inside(path, [], path);
  }

  /** Above a path are its parent and what is above that. */
  lemma NextAbove(path: Bytes, d: Bytes)
    requires d != []
    ensures (exists below :: Inside(path, d, below)) <==>
            d == Parent(path) || exists below :: Inside(Parent(path), d, below)
  {
    hide LastSlash, Inside, Parent;
    if below :| Inside(path, d, below) {
      AboveParent(path, d, below);
    }
    if d == Parent(path) {
      ParentIsAbove(path);
    }
    if below :| Inside(Parent(path), d, below) {
      AboveThat(path, d, below);
    }
  }

  lemma AboveParent(path: Bytes, d: Bytes, below: Bytes)
    requires d != [] && Inside(path, d, below)
    ensures d == Parent(path) || exists more :: Inside(Parent(path), d, more)
  {
    hide LastSlash;
    assert path[|d|] == 47 && path[..|d|] == d;
    SomeSlash(path, |d|);
    var at := LastSlash(path).value;
    if at > |d| {
      assert path[..at] == d + ([47] + path[|d| + 1..at]);
      assert Inside(Parent(path), d, path[|d| + 1..at]);
    }
  }

  lemma ParentIsAbove(path: Bytes)
    requires Parent(path) != []
    ensures exists below :: Inside(path, Parent(path), below)
  {
    hide LastSlash;
    var at := LastSlash(path).value;
    assert path == path[..at] + ([47] + path[at + 1..]);
    assert Inside(path, Parent(path), path[at + 1..]);
  }

  lemma AboveThat(path: Bytes, d: Bytes, below: Bytes)
    requires d != [] && Inside(Parent(path), d, below)
    ensures exists more :: Inside(path, d, more)
  {
    hide LastSlash;
    var at := LastSlash(path).value;
    var more := below + path[at..];
    assert path == path[..at] + path[at..];
    Associate([47], below, path[at..]);
    Associate(d, [47] + below, path[at..]);
    assert Inside(path, d, more);
  }

  lemma BelowIsInside(path: Bytes, d: Bytes, below: Bytes)
    requires Inside(path, d, below)
    ensures d <= path && Below(path, d) == below
  {
    if d != [] {
      assert path[|d| + 1..] == below;
    }
  }

  lemma {:induction false} NearestFirst(path: Bytes, i: nat, j: nat)
    requires i < j < |Ancestors(path)|
    ensures |Ancestors(path)[i]| > |Ancestors(path)[j]|
    decreases |path|
  {
    hide Parent;
    var parent := Parent(path);
    if i > 0 {
      NearestFirst(parent, i - 1, j - 1);
    } else {
      AncestorsAreShorter(parent, j - 1);
    }
  }

  lemma {:induction false} AncestorsAreShorter(path: Bytes, j: nat)
    requires path != [] && j < |Ancestors(path)|
    ensures |Ancestors(path)[j]| < |path|
    decreases |path|
  {
    hide LastSlash;
    if j > 0 {
      AncestorsAreShorter(Parent(path), j - 1);
    }
  }

  ghost predicate Quiet(w: bool, text: Bytes, below: Bytes, q: Query) {
    forall ignored :: !FileSays(w, text, below, q, ignored)
  }

  /** Of the directories above the path, the nearest whose rule file says
      anything about the entry says this. */
  ghost predicate NearestSays(w: bool, source: map<Bytes, Bytes>, path: Bytes, q: Query, ignored: bool) {
    exists d, below ::
      && Inside(path, d, below) && d in source && FileSays(w, source[d], below, q, ignored)
      && forall nearer, inside | Inside(path, nearer, inside) && nearer in source && |nearer| > |d| ::
        Quiet(w, source[nearer], inside, q)
  }

  ghost predicate NoneSays(w: bool, source: map<Bytes, Bytes>, path: Bytes, q: Query) {
    forall d, below | Inside(path, d, below) && d in source :: Quiet(w, source[d], below, q)
  }

  /** Of the files outside, the first that says anything says this. Each sees
      the path from its own directory. */
  ghost predicate OuterSays(w: bool, outer: Outer, path: Bytes, q: Query, ignored: bool) {
    exists k, whole ::
      && 0 <= k < |outer| && Inside(whole, outer[k].0, path) && FileSays(w, outer[k].1.text, whole, q, ignored)
      && forall j, seen | 0 <= j < k && Inside(seen, outer[j].0, path) :: Quiet(w, outer[j].1.text, seen, q)
  }

  lemma {:induction false} FirstOfScopes(w: bool, scopes: seq<Scope>, q: Query, ignored: bool)
    ensures FirstDecision(w, scopes, q) == Some(ignored) <==>
            exists i :: && 0 <= i < |scopes| && Decision(w, scopes[i].rules, scopes[i].below, q) == Some(ignored)
                        && forall j | 0 <= j < i :: Decision(w, scopes[j].rules, scopes[j].below, q) == None
    ensures FirstDecision(w, scopes, q) == None <==>
            forall i | 0 <= i < |scopes| :: Decision(w, scopes[i].rules, scopes[i].below, q) == None
    decreases |scopes|
  {
    hide Decision;
    if scopes != [] {
      var rest := scopes[1..];
      FirstOfScopes(w, rest, q, ignored);
      assert forall i | 0 <= i < |rest| :: rest[i] == scopes[i + 1];
      assert forall i | 0 < i < |scopes| :: scopes[i] == rest[i - 1];
    }
  }

  /** The scope of a directory decides what its file says. */
  lemma ScopeDecides(w: bool, source: map<Bytes, Bytes>, d: Bytes, below: Bytes, q: Query, ignored: bool)
    ensures Decision(w, Fresh(w, source, d).rules, below, q) == Some(ignored) <==>
            d in source && FileSays(w, source[d], below, q, ignored)
  {
    hide Rules, FileSays;
    if d in source {
      FileDecides(w, source[d], below, q, ignored);
    }
  }

  lemma EitherOrNone(decided: Option<bool>)
    ensures decided == None || decided == Some(true) || decided == Some(false)
  {
    match decided
    case None =>
    case Some(ignored) => assert ignored || !ignored;
  }

  lemma BothWays(w: bool, text: Bytes, below: Bytes, q: Query)
    ensures Quiet(w, text, below, q) <==>
            !FileSays(w, text, below, q, true) && !FileSays(w, text, below, q, false)
  {
    hide FileSays;
  }

  lemma ScopeIsQuiet(w: bool, source: map<Bytes, Bytes>, d: Bytes, below: Bytes, q: Query)
    ensures Decision(w, Fresh(w, source, d).rules, below, q) == None <==>
            (d in source ==> Quiet(w, source[d], below, q))
  {
    hide Rules, FileSays, Decision, Fresh;
    ScopeDecides(w, source, d, below, q, true);
    ScopeDecides(w, source, d, below, q, false);
    EitherOrNone(Decision(w, Fresh(w, source, d).rules, below, q));
    BothWays(w, if d in source then source[d] else [], below, q);
  }

  /** These are the directories above the path, the nearer ones first. */
  ghost predicate Directories(path: Bytes, dirs: seq<Bytes>) {
    && (forall i | 0 <= i < |dirs| :: dirs[i] <= path && Inside(path, dirs[i], Below(path, dirs[i])))
    && (forall d, below | Inside(path, d, below) :: d in dirs && d <= path && Below(path, d) == below)
    && forall i, j | 0 <= i < |dirs| && 0 <= j < |dirs| :: i < j <==> |dirs[i]| > |dirs[j]|
  }

  lemma DirectoriesAbove(path: Bytes)
    ensures Directories(path, Ancestors(path))
  {
    hide Ancestors, Inside, Below;
    var dirs := Ancestors(path);
    forall d, below | Inside(path, d, below)
      ensures d in dirs && d <= path && Below(path, d) == below
    {
      AncestorsAreAbove(path, d);
      BelowIsInside(path, d, below);
    }
    forall i | 0 <= i < |dirs|
      ensures Inside(path, dirs[i], Below(path, dirs[i]))
    {
      AncestorsAreAbove(path, dirs[i]);
    }
    forall i, j | 0 <= i < |dirs| && 0 <= j < |dirs|
      ensures i < j <==> |dirs[i]| > |dirs[j]|
    {
      if i < j {
        NearestFirst(path, i, j);
      } else if j < i {
        NearestFirst(path, j, i);
      }
    }
  }

  lemma LocalSays(w: bool, source: map<Bytes, Bytes>, path: Bytes, q: Query, ignored: bool)
    ensures FirstDecision(w, LocalScopes(w, source, path, Ancestors(path)), q) == Some(ignored) <==>
            NearestSays(w, source, path, q, ignored)
    ensures FirstDecision(w, LocalScopes(w, source, path, Ancestors(path)), q) == None <==>
            NoneSays(w, source, path, q)
  {
    hide Decision, FirstDecision, Fresh, Quiet, FileSays, Ancestors, Inside, Below;
    var dirs := Ancestors(path);
    var scopes := LocalScopes(w, source, path, dirs);
    FirstOfScopes(w, scopes, q, ignored);
    DirectoriesAbove(path);
    forall i | 0 <= i < |dirs|
      ensures Decision(w, scopes[i].rules, scopes[i].below, q) == Some(ignored) <==>
              dirs[i] in source && FileSays(w, source[dirs[i]], Below(path, dirs[i]), q, ignored)
      ensures Decision(w, scopes[i].rules, scopes[i].below, q) == None <==>
              (dirs[i] in source ==> Quiet(w, source[dirs[i]], Below(path, dirs[i]), q))
    {
      ScopeDecides(w, source, dirs[i], Below(path, dirs[i]), q, ignored);
      ScopeIsQuiet(w, source, dirs[i], Below(path, dirs[i]), q);
    }
    NearestIs(w, source, path, q, ignored, dirs);
  }

  /** The same search, by place in the list of directories. */
  ghost predicate NearestAt(
    w: bool, source: map<Bytes, Bytes>, path: Bytes, q: Query, ignored: bool, dirs: seq<Bytes>, i: int
  )
    requires forall k | 0 <= k < |dirs| :: dirs[k] <= path
  {
    && 0 <= i < |dirs| && dirs[i] in source && FileSays(w, source[dirs[i]], Below(path, dirs[i]), q, ignored)
    && forall j | 0 <= j < i :: dirs[j] in source ==> Quiet(w, source[dirs[j]], Below(path, dirs[j]), q)
  }

  lemma NearestIs(w: bool, source: map<Bytes, Bytes>, path: Bytes, q: Query, ignored: bool, dirs: seq<Bytes>)
    requires Directories(path, dirs)
    ensures NearestSays(w, source, path, q, ignored) <==>
            exists i :: NearestAt(w, source, path, q, ignored, dirs, i)
    ensures NoneSays(w, source, path, q) <==>
            forall i | 0 <= i < |dirs| :: dirs[i] in source ==> Quiet(w, source[dirs[i]], Below(path, dirs[i]), q)
  {
    hide Quiet, FileSays, Inside, Below;
    if NearestSays(w, source, path, q, ignored) {
      var d, below :|
        && Inside(path, d, below) && d in source && FileSays(w, source[d], below, q, ignored)
        && forall nearer, inside | Inside(path, nearer, inside) && nearer in source && |nearer| > |d| ::
          Quiet(w, source[nearer], inside, q);
      var i :| 0 <= i < |dirs| && dirs[i] == d;
      assert NearestAt(w, source, path, q, ignored, dirs, i);
    }
    if i :| NearestAt(w, source, path, q, ignored, dirs, i) {
      forall nearer, inside | Inside(path, nearer, inside) && nearer in source && |nearer| > |dirs[i]|
        ensures Quiet(w, source[nearer], inside, q)
      {
        var j :| 0 <= j < |dirs| && dirs[j] == nearer;
        assert j < i;
      }
    }
  }

  lemma OuterDecides(w: bool, outer: Outer, path: Bytes, q: Query, ignored: bool)
    requires forall k | 0 <= k < |outer| :: outer[k].1 == ParseFile(w, outer[k].1.text)
    ensures FirstDecision(w, OuterScopes(outer, path), q) == Some(ignored) <==> OuterSays(w, outer, path, q, ignored)
  {
    hide Decision, FirstDecision, FileSays, Rules;
    var scopes := OuterScopes(outer, path);
    FirstOfScopes(w, scopes, q, ignored);
    forall k | 0 <= k < |outer|
      ensures Inside(scopes[k].below, outer[k].0, path)
      ensures forall seen | Inside(seen, outer[k].0, path) :: seen == scopes[k].below
      ensures Decision(w, scopes[k].rules, scopes[k].below, q) == Some(ignored) <==>
              FileSays(w, outer[k].1.text, scopes[k].below, q, ignored)
      ensures Decision(w, scopes[k].rules, scopes[k].below, q) == None <==>
              Quiet(w, outer[k].1.text, scopes[k].below, q)
    {
      SeenFromOutside(outer[k].0, path);
      FileDecides(w, outer[k].1.text, scopes[k].below, q, true);
      FileDecides(w, outer[k].1.text, scopes[k].below, q, false);
      EitherOrNone(Decision(w, scopes[k].rules, scopes[k].below, q));
      BothWays(w, outer[k].1.text, scopes[k].below, q);
    }
    hide Inside, Quiet;
  }

  lemma SeenFromOutside(prefix: Bytes, path: Bytes)
    ensures forall seen :: Inside(seen, prefix, path) <==> seen == OuterBelow(prefix, path)
  {
    Associate(prefix, [47], path);
  }

  /** A path is ignored exactly when the nearest rule file that says anything
      about it, in the workspace first and then outside, says so. */
  lemma IgnoredMeans(
    w: bool, source: map<Bytes, Bytes>, outer: Outer, path: Bytes, name: Bytes, directory: bool
  )
    requires LastSegment(path, name)
    requires forall k | 0 <= k < |outer| :: outer[k].1 == ParseFile(w, outer[k].1.text)
    ensures var q := Query(path, name, directory);
            IsIgnored(w, source, outer, path, directory) <==>
            || NearestSays(w, source, path, q, true)
            || (NoneSays(w, source, path, q) && OuterSays(w, outer, path, q, true))
  {
    hide FirstDecision, LocalScopes, OuterScopes, NearestSays, NoneSays, OuterSays, LastSegment, Rules, Name;
    var q := Query(path, name, directory);
    NameIsLastSegment(path, name);
    FirstOf(w, LocalScopes(w, source, path, Ancestors(path)), OuterScopes(outer, path), q);
    LocalSays(w, source, path, q, true);
    OuterDecides(w, outer, path, q, true);
  }
}
