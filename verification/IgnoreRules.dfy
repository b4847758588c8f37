/**
  Git-style ignore rules: the lines of a rule file, the decision of one file,
  the search over the files of a path's ancestors through a cache, and the
  snapshot that later decides without the live files.
 */
module IgnoreRules {
  import opened Wrappers
  import opened ByteText
  import opened Glob
  import opened Tokens

  const HASH: Byte := '#' as int
  const SPACE: Byte := ' ' as int
  const LF: Byte := '\n' as int
  const CR: Byte := '\r' as int

  datatype Rule = Rule(tokens: seq<Token>, negated: bool, anchored: bool, directoryOnly: bool)

  // ----- Reading rules

  /** Where the line ends once unescaped trailing spaces are dropped. */
  function TrimmedEnd(line: Bytes, end: nat): (r: nat)
    requires end <= |line|
    ensures r <= end && forall k | r <= k < end :: line[k] == SPACE
    ensures r > 0 && line[r - 1] == SPACE ==> r >= 2 && line[r - 2] == BACKSLASH
  {
    if end > 0 && line[end - 1] == SPACE && (end < 2 || line[end - 2] != BACKSLASH)
    then TrimmedEnd(line, end - 1) else end
  }

  /** A rule line: whether it negates, whether it is anchored, whether it wants
      a directory, and its glob. */
  function RuleParts(line: Bytes): Option<(bool, bool, bool, Bytes)> {
    if line == [] || line[0] == HASH then None else PatternParts(line[..TrimmedEnd(line, |line|)])
  }

  function PatternParts(pattern: Bytes): Option<(bool, bool, bool, Bytes)> {
    var negated := pattern != [] && pattern[0] == BANG;
    var pattern := if negated then pattern[1..] else pattern;
    var directoryOnly := pattern != [] && pattern[|pattern| - 1] == SLASH;
    var pattern := if directoryOnly then pattern[..|pattern| - 1] else pattern;
    var anchored := SLASH in pattern;
    var pattern := if pattern != [] && pattern[0] == SLASH then pattern[1..] else pattern;
    if pattern == [] then None else Some((negated, anchored, directoryOnly, pattern))
  }

  function RuleOf(w: bool, line: Bytes): Option<Rule> {
    match RuleParts(line)
    case None => None
    case Some((negated, anchored, directoryOnly, pattern)) =>
      Some(Rule(TokensOf(w, pattern), negated, anchored, directoryOnly))
  }

  function LineEnd(text: Bytes): (n: nat)
    ensures n <= |text|
  {
    if text == [] || text[0] == LF then 0 else 1 + LineEnd(text[1..])
  }

  /** The rules of a file's lines; a line ends at a newline, less a carriage return before it. */
  function Rules(w: bool, text: Bytes): seq<Rule>
    decreases |text|
  {
    if text == [] then []
    else
      var n := LineEnd(text);
      var line := if 0 < n < |text| && text[n - 1] == CR then text[..n - 1] else text[..n];
      var rest := if n < |text| then text[n + 1..] else [];
      (match RuleOf(w, line) case Some(rule) => [rule] case None => []) + Rules(w, rest)
  }

  ghost predicate WellFormed(w: bool, rules: seq<Rule>) {
    forall k | 0 <= k < |rules| :: Canonical(w, true, rules[k].tokens)
  }

  lemma {:induction false} RulesAreWellFormed(w: bool, text: Bytes)
    ensures WellFormed(w, Rules(w, text))
    decreases |text|
  {
    hide Canonical, TokensFrom, RuleOf, WellFormed;
    if text != [] {
      var n := LineEnd(text);
      var line := if 0 < n < |text| && text[n - 1] == CR then text[..n - 1] else text[..n];
      var rest := if n < |text| then text[n + 1..] else [];
      RulesAreWellFormed(w, rest);
      RuleIsWellFormed(w, line);
      FirstRule(w, RuleOf(w, line), Rules(w, rest));
    } else {
      FirstRule(w, None, []);
    }
  }

  lemma FirstRule(w: bool, first: Option<Rule>, rest: seq<Rule>)
    requires rest == [] || WellFormed(w, rest)
    requires first.Some? ==> Canonical(w, true, first.value.tokens)
    ensures WellFormed(w, [])
    ensures WellFormed(w, (match first case Some(rule) => [rule] case None => []) + rest)
  {
    hide Canonical;
  }

  lemma RuleIsWellFormed(w: bool, line: Bytes)
    ensures RuleOf(w, line).Some? ==> Canonical(w, true, RuleOf(w, line).value.tokens)
  {
    hide Canonical, TokensFrom, RuleParts;
    if RuleParts(line).Some? {
      TokensAreCanonical(w, true, RuleParts(line).value.3);
    }
  }

  // ----- One rule file

  /** The entry under decision: its path, its name and what it is. */
  datatype Query = Query(path: Bytes, name: Bytes, directory: bool)

  ghost predicate Applies(w: bool, rule: Rule, below: Bytes, q: Query) {
    && (rule.directoryOnly ==> q.directory)
    && Matches(w, rule.tokens, if rule.anchored then below else q.name)
  }

  /** The last rule that applies decides. */
  ghost function Decision(w: bool, rules: seq<Rule>, below: Bytes, q: Query): Option<bool> {
    if rules == [] then None
    else if Applies(w, rules[|rules| - 1], below, q) then Some(!rules[|rules| - 1].negated)
    else Decision(w, rules[..|rules| - 1], below, q)
  }

  ghost predicate DecidesAt(w: bool, rules: seq<Rule>, below: Bytes, q: Query, k: int) {
    && 0 <= k < |rules| && Applies(w, rules[k], below, q)
    && forall l | k < l < |rules| :: !Applies(w, rules[l], below, q)
  }

  lemma {:induction false} LastMatchDecides(w: bool, rules: seq<Rule>, below: Bytes, q: Query, k: int)
    requires DecidesAt(w, rules, below, q, k)
    ensures Decision(w, rules, below, q) == Some(!rules[k].negated)
  {
    hide Applies;
    if k < |rules| - 1 {
      LastMatchDecides(w, rules[..|rules| - 1], below, q, k);
    }
  }

  lemma {:induction false} SomeMatchDecides(w: bool, rules: seq<Rule>, below: Bytes, q: Query)
    ensures if Decision(w, rules, below, q) == None
            then forall k | 0 <= k < |rules| :: !Applies(w, rules[k], below, q)
            else exists k :: DecidesAt(w, rules, below, q, k)
  {
    hide Applies;
    if rules != [] {
      var n := |rules| - 1;
      SomeMatchDecides(w, rules[..n], below, q);
      if Applies(w, rules[n], below, q) {
        assert DecidesAt(w, rules, below, q, n);
      } else if k :| DecidesAt(w, rules[..n], below, q, k) {
        assert DecidesAt(w, rules, below, q, k);
      }
    }
  }

  /** A file decides by its last rule that applies, and only if one does. */
  lemma LastMatchWins(w: bool, rules: seq<Rule>, below: Bytes, q: Query, ignored: bool)
    ensures Decision(w, rules, below, q) == Some(ignored) <==>
            exists k :: DecidesAt(w, rules, below, q, k) && ignored == !rules[k].negated
  {
    SomeMatchDecides(w, rules, below, q);
    if k :| DecidesAt(w, rules, below, q, k) {
      LastMatchDecides(w, rules, below, q, k);
    }
    forall k | DecidesAt(w, rules, below, q, k)
      ensures Decision(w, rules, below, q) == Some(!rules[k].negated)
    {
      LastMatchDecides(w, rules, below, q, k);
    }
  }

  method DecideEntry(w: bool, rules: seq<Rule>, below: Bytes, q: Query) returns (r: Option<bool>)
    requires WellFormed(w, rules)
    ensures r == Decision(w, rules, below, q)
  {
    hide Canonical, Matches;
    var k := |rules|;
    assert rules[..k] == rules;
    while k > 0
      invariant 0 <= k <= |rules|
      invariant Decision(w, rules, below, q) == Decision(w, rules[..k], below, q)
    {
      k := k - 1;
      assert rules[..k + 1][..k] == rules[..k];
      var rule := rules[k];
      AllIsLast(w, true, rule.tokens);
      if !rule.directoryOnly || q.directory {
        var matched := MatchTokens(w, rule.tokens, if rule.anchored then below else q.name);
        if matched {
          return Some(!rule.negated);
        }
      }
    }
    return None;
  }

  // ----- Paths

  function LastSlash(path: Bytes): (r: Option<nat>)
    ensures r.Some? ==> r.value < |path| && path[r.value] == SLASH && SLASH !in path[r.value + 1..]
    ensures r.None? ==> SLASH !in path
  {
    if path == [] then None
    else
      var n := |path| - 1;
      if path[n] == SLASH then Some(n)
      else
        assert path == path[..n] + [path[n]];
        var r := LastSlash(path[..n]);
        assert r.Some? ==> path[r.value + 1..] == path[..n][r.value + 1..] + [path[n]];
        r
  }

  function Parent(path: Bytes): (r: Bytes)
    ensures r <= path && (path != [] ==> |r| < |path|)
  {
    match LastSlash(path) case Some(at) => path[..at] case None => []
  }

  function Name(path: Bytes): Bytes {
    match LastSlash(path) case Some(at) => path[at + 1..] case None => path
  }

  function Below(path: Bytes, parent: Bytes): Bytes
    requires parent <= path
  {
    if parent == [] || |path| == |parent| then path else path[|parent| + 1..]
  }

  /** The directories above a path, nearest first, down to the workspace. */
  function Ancestors(path: Bytes): (dirs: seq<Bytes>)
    ensures forall k | 0 <= k < |dirs| :: dirs[k] <= path
    decreases |path|
  {
    var parent := Parent(path);
    [parent] + if parent == [] then [] else Ancestors(parent)
  }

  // ----- The search

  datatype RuleFile = RuleFile(text: Bytes, rules: seq<Rule>)

  const NO_RULES := RuleFile([], [])

  function ParseFile(w: bool, text: Bytes): RuleFile { RuleFile(text, Rules(w, text)) }

  /** What reading a directory's rule file afresh yields. */
  function Fresh(w: bool, source: map<Bytes, Bytes>, directory: Bytes): RuleFile {
    if directory in source then ParseFile(w, source[directory]) else NO_RULES
  }

  lemma FreshIsWellFormed(w: bool, source: map<Bytes, Bytes>, directory: Bytes)
    ensures WellFormed(w, Fresh(w, source, directory).rules)
  {
    if directory in source {
      RulesAreWellFormed(w, source[directory]);
    }
  }

  type Outer = seq<(Bytes, RuleFile)>

  function OuterBelow(prefix: Bytes, path: Bytes): Bytes {
    if prefix == [] then path else prefix + [SLASH] + path
  }

  /** One place rules come from, with the path as that place sees it. */
  datatype Scope = Scope(rules: seq<Rule>, below: Bytes)

  ghost function LocalScopes(w: bool, source: map<Bytes, Bytes>, path: Bytes, dirs: seq<Bytes>): seq<Scope>
    requires forall k | 0 <= k < |dirs| :: dirs[k] <= path
  {
    seq(|dirs|, k requires 0 <= k < |dirs| => Scope(Fresh(w, source, dirs[k]).rules, Below(path, dirs[k])))
  }

  ghost function OuterScopes(outer: Outer, path: Bytes): seq<Scope> {
    seq(|outer|, k requires 0 <= k < |outer| => Scope(outer[k].1.rules, OuterBelow(outer[k].0, path)))
  }

  /** Nearest first: the first scope that decides at all. */
  ghost function FirstDecision(w: bool, scopes: seq<Scope>, q: Query): Option<bool> {
    if scopes == [] then None
    else match Decision(w, scopes[0].rules, scopes[0].below, q)
      case Some(ignored) => Some(ignored)
      case None => FirstDecision(w, scopes[1..], q)
  }

  ghost function Scopes(w: bool, source: map<Bytes, Bytes>, outer: Outer, path: Bytes): seq<Scope> {
    LocalScopes(w, source, path, Ancestors(path)) + OuterScopes(outer, path)
  }

  ghost predicate IsIgnored(w: bool, source: map<Bytes, Bytes>, outer: Outer, path: Bytes, directory: bool) {
    FirstDecision(w, Scopes(w, source, outer, path), Query(path, Name(path), directory)) == Some(true)
  }

  ghost predicate DecidesAtScope(w: bool, scopes: seq<Scope>, q: Query, i: int, k: int) {
    && 0 <= i < |scopes| && DecidesAt(w, scopes[i].rules, scopes[i].below, q, k)
    && forall j | 0 <= j < i :: Silent(w, scopes[j], q)
  }

  /** No rule of this scope applies. */
  ghost predicate Silent(w: bool, scope: Scope, q: Query) {
    forall k | 0 <= k < |scope.rules| :: !Applies(w, scope.rules[k], scope.below, q)
  }

  lemma {:induction false} NearestScopeDecides(w: bool, scopes: seq<Scope>, q: Query, i: int, k: int)
    requires DecidesAtScope(w, scopes, q, i, k)
    ensures FirstDecision(w, scopes, q) == Some(!scopes[i].rules[k].negated)
    decreases |scopes|
  {
    hide Applies, Decision;
    var first := scopes[0];
    if i == 0 {
      LastMatchDecides(w, first.rules, first.below, q, k);
    } else {
      assert Silent(w, first, q);
      SomeMatchDecides(w, first.rules, first.below, q);
      assert scopes[i] == scopes[1..][i - 1];
      assert forall j | 0 <= j < i - 1 :: scopes[1..][j] == scopes[j + 1];
      NearestScopeDecides(w, scopes[1..], q, i - 1, k);
    }
  }

  lemma {:induction false} SomeScopeDecides(w: bool, scopes: seq<Scope>, q: Query) returns (i: int, k: int)
    requires FirstDecision(w, scopes, q) != None
    ensures DecidesAtScope(w, scopes, q, i, k)
    decreases |scopes|
  {
    hide Applies, Decision;
    var first := scopes[0];
    SomeMatchDecides(w, first.rules, first.below, q);
    if Decision(w, first.rules, first.below, q) != None {
      i := 0;
      k :| DecidesAt(w, first.rules, first.below, q, k);
    } else {
      i, k := SomeScopeDecides(w, scopes[1..], q);
      assert forall j | 0 < j <= i :: scopes[1..][j - 1] == scopes[j];
      i := i + 1;
      assert Silent(w, scopes[0], q);
    }
  }

  /** The decision is that of the last applying rule of the nearest scope with one. */
  lemma NearestScopeWins(w: bool, scopes: seq<Scope>, q: Query, ignored: bool)
    ensures FirstDecision(w, scopes, q) == Some(ignored) <==>
            exists i, k :: DecidesAtScope(w, scopes, q, i, k) && ignored == !scopes[i].rules[k].negated
  {
    hide Applies, Decision;
    if FirstDecision(w, scopes, q) != None {
      var i, k := SomeScopeDecides(w, scopes, q);
      NearestScopeDecides(w, scopes, q, i, k);
    }
    forall i, k | DecidesAtScope(w, scopes, q, i, k)
      ensures FirstDecision(w, scopes, q) == Some(!scopes[i].rules[k].negated)
    {
      NearestScopeDecides(w, scopes, q, i, k);
    }
  }

  // ----- The cache

  datatype Saved = Saved(local: map<Bytes, Bytes>, outer: seq<(Bytes, Bytes)>)

  class Ignore {
    const w: bool
    /** Live rules read a directory's file on first use; restored ones never do. */
    const live: bool
    /** Rule texts by directory: of the live files, or those that were saved. */
    const source: map<Bytes, Bytes>
    const outer: Outer
    var local: map<Bytes, RuleFile>
    /** Directories a walk reported to hold no rules before they were read. */
    ghost var absent: set<Bytes>

    /** The rule files as far as the walks told of them. */
    ghost function Known(): map<Bytes, Bytes>
      reads this`absent
    {
      source - absent
    }

    ghost predicate Valid()
      reads this
    {
      && absent <= local.Keys
      && (forall d | d in local :: local[d] == Fresh(w, Known(), d))
      && (!live ==> source.Keys <= local.Keys)
      && forall k | 0 <= k < |outer| :: outer[k].1 == ParseFile(w, outer[k].1.text)
    }

    constructor Live(w: bool, disk: map<Bytes, Bytes>, outer: seq<(Bytes, Bytes)>)
      ensures Valid() && live && this.w == w && source == Known() == disk && local == map[]
      ensures this.outer == ParsedOuter(w, outer)
    {
      this.w, this.live, this.source := w, true, disk;
      this.outer := ParsedOuter(w, outer);
      this.local, this.absent := map[], {};
    }

    constructor Restored(w: bool, rules: Saved)
      ensures Valid() && !live && this.w == w && source == Known() == rules.local
      ensures this.outer == ParsedOuter(w, rules.outer)
    {
      this.w, this.live, this.source := w, false, rules.local;
      this.outer := ParsedOuter(w, rules.outer);
      this.local, this.absent := map d | d in rules.local :: ParseFile(w, rules.local[d]), {};
    }

    method Local(directory: Bytes) returns (file: RuleFile)
      requires Valid()
      modifies this`local
      ensures Valid() && local == old(local)[directory := file]
      ensures file == Fresh(w, Known(), directory)
    {
      if directory !in local {
        var loaded := if live && directory in source then ParseFile(w, source[directory]) else NO_RULES;
        local := local[directory := loaded];
      }
      file := local[directory];
    }

    /** A walk reports whether a directory holds a rule file. What it says of a
        directory not read yet is taken for true. */
    method Visit(directory: Bytes, hasRules: bool)
      requires Valid()
      modifies this`local, this`absent
      ensures Valid() && local.Keys == old(local).Keys + {directory}
      ensures Known() == if hasRules || directory in old(local) then old(Known()) else old(Known()) - {directory}
      ensures hasRules == (directory in source) ==> Known() == old(Known())
    {
      if hasRules {
        var _ := Local(directory);
      } else if directory !in local {
        absent := absent + {directory};
        local := local[directory := NO_RULES];
      }
    }

    method LocalSearch(path: Bytes, q: Query) returns (decided: Option<bool>)
      requires Valid()
      modifies this`local
      ensures Valid() && old(local.Keys) <= local.Keys
      ensures decided == FirstDecision(w, LocalScopes(w, Known(), path, Ancestors(path)), q)
    {
      hide Decision, WellFormed, Rules, Fresh;
      var parent := path;
      ghost var dirs := Ancestors(path);
      ghost var answer := FirstDecision(w, LocalScopes(w, Known(), path, dirs), q);
      while true
        invariant Valid() && old(local.Keys) <= local.Keys && parent <= path
        invariant dirs == Ancestors(parent)
        invariant answer == FirstDecision(w, LocalScopes(w, Known(), path, dirs), q)
        decreases |parent|
      {
        parent := Parent(parent);
        SearchStep(w, Known(), path, dirs, q);
        var file := Local(parent);
        FreshIsWellFormed(w, Known(), parent);
        decided := DecideEntry(w, file.rules, Below(path, parent), q);
        if decided.Some? || parent == [] {
          return;
        }
        dirs := dirs[1..];
      }
    }

    method OuterSearch(path: Bytes, q: Query) returns (decided: Option<bool>)
      requires Valid()
      ensures decided == FirstDecision(w, OuterScopes(outer, path), q)
    {
      hide Decision, WellFormed, Rules;
      var k := 0;
      while k < |outer|
        invariant 0 <= k <= |outer|
        invariant FirstDecision(w, OuterScopes(outer, path), q) == FirstDecision(w, OuterScopes(outer, path)[k..], q)
      {
        RulesAreWellFormed(w, outer[k].1.text);
        decided := DecideEntry(w, outer[k].1.rules, OuterBelow(outer[k].0, path), q);
        if decided.Some? {
          return;
        }
        assert OuterScopes(outer, path)[k..][1..] == OuterScopes(outer, path)[k + 1..];
        k := k + 1;
      }
      return None;
    }

    /** The cached search answers as a fresh one would, whatever was asked before. */
    method IgnoredEntry(path: Bytes, directory: bool) returns (ignored: bool)
      requires Valid()
      modifies this`local
      ensures Valid() && old(local.Keys) <= local.Keys
      ensures ignored == IsIgnored(w, Known(), outer, path, directory)
    {
      hide FirstDecision;
      var q := Query(path, Name(path), directory);
      FirstOf(w, LocalScopes(w, Known(), path, Ancestors(path)), OuterScopes(outer, path), q);
      var decided := LocalSearch(path, q);
      if decided.Some? {
        return decided.value;
      }
      decided := OuterSearch(path, q);
      return decided == Some(true);
    }

    /** Whether an entry, or a directory above it, is ignored somewhere below an
        explicitly chosen scope. */
    method IgnoredBeneath(path: Bytes, scope: Bytes, directory: bool) returns (ignored: bool)
      requires Valid()
      modifies this`local
      ensures Valid() && old(local.Keys) <= local.Keys
      ensures ignored <==> exists d | d in OnTheWay(if directory then path else Parent(path)) ::
                             |d| > |scope| && IsIgnored(w, Known(), outer, d, true)
    {
      hide IsIgnored, OnTheWay;
      var ancestor := if directory then path else Parent(path);
      ghost var start := ancestor;
      NoneLonger(ancestor);
      while |ancestor| > |scope|
        invariant Valid() && old(local.Keys) <= local.Keys
        invariant ancestor in OnTheWay(start) && OnTheWay(ancestor) <= OnTheWay(start)
        invariant forall d | d in OnTheWay(ancestor) :: |d| <= |ancestor|
        invariant forall d | d in OnTheWay(start) ::
                    d in OnTheWay(ancestor) || !IsIgnored(w, Known(), outer, d, true)
        decreases |ancestor|
      {
        ignored := IgnoredEntry(ancestor, true);
        if ignored {
          return;
        }
        UpOne(ancestor);
        ancestor := Parent(ancestor);
        NoneLonger(ancestor);
      }
      ignored := false;
    }

    /** Loads the rule files of a directory and of every directory above it. */
    method LoadUpward(root: Bytes)
      requires Valid()
      modifies this`local
      ensures Valid() && local.Keys == old(local.Keys) + OnTheWay(root)
    {
      var directory := root;
      ghost var loaded: set<Bytes> := {};
      while true
        invariant Valid() && local.Keys == old(local.Keys) + loaded
        invariant OnTheWay(root) == loaded + OnTheWay(directory)
        decreases |directory|
      {
        var _ := Local(directory);
        loaded := loaded + {directory};
        if directory == [] {
          break;
        }
        directory := Parent(directory);
      }
    }

    /** Keeps the rule sources of every root and of the directories above it. */
    method Snapshot(roots: seq<Bytes>) returns (rules: Saved)
      requires Valid()
      modifies this`local
      ensures Valid() && old(local.Keys) <= local.Keys
      ensures forall k | 0 <= k < |roots| :: OnTheWay(roots[k]) <= local.Keys
      ensures rules == SavedRules(w, Known(), local.Keys, outer)
    {
      hide Rules, OnTheWay;
      for i := 0 to |roots|
        invariant Valid() && old(local.Keys) <= local.Keys
        invariant forall k | 0 <= k < i :: OnTheWay(roots[k]) <= local.Keys
      {
        LoadUpward(roots[i]);
      }
      rules := Saved(
        map d | d in local && local[d].rules != [] :: local[d].text,
        SavedOuter(outer));
    }
  }

  /** A directory and all those above it. */
  ghost function OnTheWay(directory: Bytes): set<Bytes>
    decreases |directory|
  {
    {directory} + if directory == [] then {} else OnTheWay(Parent(directory))
  }

  lemma UpOne(directory: Bytes)
    requires directory != []
    ensures OnTheWay(directory) == {directory} + OnTheWay(Parent(directory))
  {
  }

  lemma {:induction false} NoneLonger(directory: Bytes)
    ensures directory in OnTheWay(directory)
    ensures forall d | d in OnTheWay(directory) :: |d| <= |directory|
    decreases |directory|
  {
    if directory != [] {
      NoneLonger(Parent(directory));
    }
  }

  lemma {:induction false} AncestorsAreOnTheWay(path: Bytes)
    ensures forall d | d in Ancestors(path) :: d in OnTheWay(Parent(path))
    decreases |path|
  {
    if Parent(path) != [] {
      AncestorsAreOnTheWay(Parent(path));
    }
  }

  function ParsedOuter(w: bool, outer: seq<(Bytes, Bytes)>): (r: Outer)
    ensures |r| == |outer| && forall k | 0 <= k < |r| :: r[k] == (outer[k].0, ParseFile(w, outer[k].1))
  {
    seq(|outer|, k requires 0 <= k < |outer| => (outer[k].0, ParseFile(w, outer[k].1)))
  }

  /** Outside rule files are kept when they hold any rule. */
  function SavedOuter(outer: Outer): seq<(Bytes, Bytes)> {
    if outer == [] then []
    else (if outer[0].1.rules == [] then [] else [(outer[0].0, outer[0].1.text)]) + SavedOuter(outer[1..])
  }

  ghost function SavedRules(w: bool, source: map<Bytes, Bytes>, loaded: set<Bytes>, outer: Outer): Saved {
    Saved(map d | d in loaded && Fresh(w, source, d).rules != [] :: Fresh(w, source, d).text, SavedOuter(outer))
  }

  lemma SearchStep(w: bool, source: map<Bytes, Bytes>, path: Bytes, dirs: seq<Bytes>, q: Query)
    requires dirs != [] && forall k | 0 <= k < |dirs| :: dirs[k] <= path
    ensures FirstDecision(w, LocalScopes(w, source, path, dirs), q)
         == match Decision(w, Fresh(w, source, dirs[0]).rules, Below(path, dirs[0]), q)
            case Some(ignored) => Some(ignored)
            case None => FirstDecision(w, LocalScopes(w, source, path, dirs[1..]), q)
  {
    hide Decision;
    assert LocalScopes(w, source, path, dirs)[1..] == LocalScopes(w, source, path, dirs[1..]);
  }

  lemma {:induction false} FirstOf(w: bool, a: seq<Scope>, b: seq<Scope>, q: Query)
    ensures FirstDecision(w, a + b, q)
         == if FirstDecision(w, a, q) == None then FirstDecision(w, b, q) else FirstDecision(w, a, q)
    decreases |a|
  {
    hide Decision;
    if a == [] {
      assert a + b == b;
    } else {
      FirstOf(w, a[1..], b, q);
      assert (a + b)[1..] == a[1..] + b;
    }
  }

  // ----- A snapshot decides as the live rules did

  lemma EmptyFile(w: bool, below: Bytes, q: Query)
    ensures Decision(w, [], below, q) == None
  {
  }

  lemma OuterStep(w: bool, outer: Outer, path: Bytes, q: Query)
    requires outer != []
    ensures FirstDecision(w, OuterScopes(outer, path), q)
         == match Decision(w, outer[0].1.rules, OuterBelow(outer[0].0, path), q)
            case Some(ignored) => Some(ignored)
            case None => FirstDecision(w, OuterScopes(outer[1..], path), q)
  {
    hide Decision, OuterBelow;
    assert OuterScopes(outer, path)[1..] == OuterScopes(outer[1..], path);
  }

  lemma {:induction false} SavedOuterDecides(w: bool, outer: Outer, path: Bytes, q: Query)
    requires forall k | 0 <= k < |outer| :: outer[k].1 == ParseFile(w, outer[k].1.text)
    ensures FirstDecision(w, OuterScopes(ParsedOuter(w, SavedOuter(outer)), path), q)
         == FirstDecision(w, OuterScopes(outer, path), q)
    decreases |outer|
  {
    hide Rules, Decision, FirstDecision, OuterScopes, OuterBelow;
    if outer != [] {
      var rest := outer[1..];
      SavedOuterDecides(w, rest, path, q);
      OuterStep(w, outer, path, q);
      if outer[0].1.rules != [] {
        var saved := ParsedOuter(w, SavedOuter(outer));
        assert SavedOuter(outer)[1..] == SavedOuter(rest);
        assert saved[1..] == ParsedOuter(w, SavedOuter(rest));
        OuterStep(w, saved, path, q);
      } else {
        assert SavedOuter(outer) == SavedOuter(rest);
        EmptyFile(w, OuterBelow(outer[0].0, path), q);
      }
    } else {
      assert ParsedOuter(w, SavedOuter(outer)) == outer;
    }
  }

  /** What `Ignore.Restored` answers from saved rules. */
  ghost predicate RestoredIgnores(w: bool, saved: Saved, path: Bytes, directory: bool) {
    IsIgnored(w, saved.local, ParsedOuter(w, saved.outer), path, directory)
  }

  /** Restored rules decide as the live ones whose files had been loaded, with
      the files never loaded left out. */
  lemma SnapshotDecides(
    w: bool, source: map<Bytes, Bytes>, loaded: set<Bytes>, outer: Outer, path: Bytes, directory: bool
  )
    requires forall k | 0 <= k < |outer| :: outer[k].1 == ParseFile(w, outer[k].1.text)
    ensures RestoredIgnores(w, SavedRules(w, source, loaded, outer), path, directory)
         == IsIgnored(w, map d | d in source && d in loaded :: source[d], outer, path, directory)
  {
    hide Rules, FirstDecision;
    var saved := SavedRules(w, source, loaded, outer);
    var q := Query(path, Name(path), directory);
    var known := map d | d in source && d in loaded :: source[d];
    SavedOuterDecides(w, outer, path, q);
    forall d
      ensures Fresh(w, saved.local, d).rules == Fresh(w, known, d).rules
    {
      SavedFile(w, source, loaded, outer, d);
    }
    SameScopes(w, saved.local, known, ParsedOuter(w, saved.outer), outer, path, q);
  }

  lemma SavedFile(w: bool, source: map<Bytes, Bytes>, loaded: set<Bytes>, outer: Outer, d: Bytes)
    ensures Fresh(w, SavedRules(w, source, loaded, outer).local, d).rules
         == if d in loaded then Fresh(w, source, d).rules else []
  {
    hide Rules;
  }

  lemma SameScopes(
    w: bool, a: map<Bytes, Bytes>, b: map<Bytes, Bytes>, outerA: Outer, outerB: Outer, path: Bytes, q: Query
  )
    requires forall k | 0 <= k < |Ancestors(path)| ::
               Fresh(w, a, Ancestors(path)[k]).rules == Fresh(w, b, Ancestors(path)[k]).rules
    requires FirstDecision(w, OuterScopes(outerA, path), q) == FirstDecision(w, OuterScopes(outerB, path), q)
    ensures FirstDecision(w, Scopes(w, a, outerA, path), q) == FirstDecision(w, Scopes(w, b, outerB, path), q)
  {
    hide FirstDecision, Fresh, Parent;
    FirstOf(w, LocalScopes(w, a, path, Ancestors(path)), OuterScopes(outerA, path), q);
    FirstOf(w, LocalScopes(w, b, path, Ancestors(path)), OuterScopes(outerB, path), q);
    assert LocalScopes(w, a, path, Ancestors(path)) == LocalScopes(w, b, path, Ancestors(path));
  }

  /** So a path whose ancestors were all loaded is decided exactly as before. */
  lemma SnapshotIsTransparent(
    w: bool, source: map<Bytes, Bytes>, loaded: set<Bytes>, outer: Outer, path: Bytes, directory: bool
  )
    requires forall k | 0 <= k < |outer| :: outer[k].1 == ParseFile(w, outer[k].1.text)
    requires forall d | d in Ancestors(path) :: d in loaded
    ensures RestoredIgnores(w, SavedRules(w, source, loaded, outer), path, directory)
         == IsIgnored(w, source, outer, path, directory)
  {
    hide Rules, FirstDecision, Decision;
    SnapshotDecides(w, source, loaded, outer, path, directory);
    var known := map d | d in source && d in loaded :: source[d];
    SameScopes(w, known, source, outer, outer, path, Query(path, Name(path), directory));
  }
}
