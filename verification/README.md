# Verified models of the agent's core algorithms

A terminal coding agent keeps a conversation with a language model, runs the tools the model calls and
shows what they changed. This project models the pieces of it whose specification is short and whose
implementation is not, and proves each implementation against its specification.

`dafny verify dfyconfig.toml` checks everything. One file is one module.

| files | what they model |
|---|---|
| `Alignment`, `FileChange` | the displayed change of a file: rolling-row score table, divide-and-conquer alignment, edit script, hunks |
| `Glob`, `Tokens`, `IgnoreRules` | ignore rules: pattern syntax, matching by reachable positions, precedence of rule files, their cache and its snapshot |
| `Patterns`, `RuleLines` | what a glob, a rule line and all rule files of a path mean, read from their bytes, as the reference for the above |
| `Json`, `JsonRoundTrip`, `JsonGrammar`, `JsonParser` | JSON values, two printers, what a text denotes by the grammar (sections 2 to 7 of RFC 8259), the recursive parser and the one with a moving position |
| `Redact`, `Secrets`, `RedactCursor` | masking of secrets: streams in chunks, pages of bytes, the order of the patterns, and a text cursor |
| `Masking`, `TextMask`, `MaskedBytes` | masking of texts and JSON values pattern by pattern, what it leaves, and how it compares with the one scan over bytes |
| `Utf8` | incremental validation of text (section 4 of RFC 3629) |
| `Http` | decoding a response in chunks, and the wire form of an address (section 2.1 of RFC 3986) |
| `Inbox` | prompts submitted while the agent works |
| `Transcript`, `Gate`, `Receipts`, `Execution`, `Turn` | running the calls of an answer with failures at every point, the permission checks before each, the turn that compacts and asks again, and questions answered in a later session |
| `Projection`, `PendingState` | the request built from the transcript, the state updates in it, and how requests extend one another |
| `Compaction` | where the recent part of a conversation begins, the context after a summary, and that contexts stay valid while the transcript grows |
| `Permissions`, `SharedPermissions` | permission requests, decisions, remembered grants and their journal |
| `Plans`, `MaskedPlans`, `Todo` | conversation plans, their JSON form, what masking leaves of it, and the search for the latest one |
| `Wrappers`, `ByteText`, `Strings` | optional values, bytes, text |

## How to read it

Code that works step by step is a method or a class here, with loops where the source has them; its
contract ties it to a function, and the lemmas are about that function. Code made of expressions is
functions. Whatever the environment decides is arbitrary: saving, showing an event and being cancelled
may succeed or fail at each single point (`Execution`, `Turn`, `SharedPermissions`), and
what the shared-state steps depend on is a parameter of the step (`Inbox`, `Permissions`), so that the
statements about runs cover every interleaving of whole steps, each of which holds one lock.

Texts are sequences of Unicode scalars in the JSON modules, `FileChange`, `Strings`, `Inbox`,
`PendingState`, `Masking`, `Plans`, `MaskedPlans` and `Todo`, and sequences of bytes in `Glob`, `Tokens`,
`Patterns`, `IgnoreRules`, `RuleLines`, `Redact`, `Secrets`, `RedactCursor`, `TextMask`, `Utf8` and `Http`; `MaskedBytes` joins the two.
Numbers are unbounded except where the source's width shows: plan revisions, the saturating sums of
`Compaction` and the byte limits.

A call's result in the model says what happened to the call (not executed, refused, answered, ran,
unknown) rather than its text, and the ghost field `launched` counts every tool started; this is how
"reported as not executed" is shown to mean that the tool never ran. Beside it, the ghost field `log`
keeps every look at a call's permission with what it saw, and which look let which tool start, `saved` is
what the last checkpoint saved, and `course` counts what failed and so stopped the turn, the tools whose end
nobody learned and the step results that stopped other steps, beside the events shown. Every result is
explained by these (`Receipts`): none says less than what happened, and a method succeeds exactly when
nothing failed meanwhile and no question was saved for later.

## Where the source does not do what it says

- The comment on `byte_prefix` (src/redact.rs:94-95) says live readers see every byte that can no longer
  be masked. `Redact.SettledByteIsHeldExactly` says when they do not: exactly when going on over the bytes
  kept back, from match to match, meets a byte where nothing matches, with no place on the way where a
  longer or earlier pattern may still arrive. There are two ways into it. With the secrets `abQ` and `xa`
  a match runs across the safe end (`Secrets.PlainByteIsHeld`). And when a pattern is a proper beginning of
  a later one, the safe end itself may lie too early: a secret that ends in backslashes begins its own
  escaped form (`Secrets.PlainByteIsHeldByEscape`), and a secret may also begin the escaped form of another.
  `Redact.HeldAtTheSafeEnd` says that without such a pair of patterns only the first way is left. What is
  finally written is right in every case.
- The comment in `decide` (src/permissions.rs:364-367) says a failed append leaves grants unchanged. They
  are, until the session is resumed: `Permissions.FailedDecisionLeaks` is a run after which resuming
  remembers a grant of a decision that failed, and `Permissions.ResumeRestores` says which grants resuming
  adds after any run: exactly those failed decisions left in the journal and no later one remembered.
- The default level is meant for new conversations (src/permissions.rs:278-281), and binding takes it for a
  session that says no level (src/permissions.rs:454-465). Such a session moves to a default set later:
  `Permissions.DefaultMovesLevel` is a run that shows it, and `Permissions.ResumeRestores` says that the
  level is restored exactly when the session says one or the default is what it was.
- State is meant to be sent once while nothing changes (src/agent/projection.rs:101-105). With a section
  header among the instructions it is sent with every request (`PendingState.HeaderIsSentForever`). The
  title of a plan can bring one in (`PendingState.TitleBringsHeader`, `PendingState.HeaderIsATitle`), and
  `PendingState.NothingPendingTwice` says that a header is the only way.
- A plan is meant to be found again as it was set (src/todo.rs:1). Its result is masked before it is
  recorded (src/agent.rs:331-337), so a secret inside a plan changes it or hides it: `Todo.SetIsLatest` says
  that the plan is the latest exactly when masking keeps it, `MaskedPlans.PlanKeptMeans` when that is, and
  `Todo.SecretTaskIsForgotten` is a plan that is not found.
- Masking is meant to leave no secret (src/redact.rs:193-203). A secret that can share a byte with the mark
  `[redacted]` may be there again after its replacement (`MaskedBytes.SecretInsideMark`), and no other can
  (`TextMask.NoPatternLeft`). Texts and bytes are masked in different orders, which shows when secrets
  overlap (`MaskedBytes.OverlapsDiffer`) and not otherwise (`TextMask.EachIsOneScan`).
- A request with a note of its own, or with a state text equal to the visible one, is not the beginning
  of the next request (src/agent/continuation.rs:8-11 intends the first);
  `Projection.ExtendsExactlyWhenFixed` shows that no other request fails to be.
- A response whose header ends beyond 65537 bytes is accepted when it arrives in one piece and refused when
  a piece ends earlier beyond the limit (src/http.rs:143-148); `Http.CutsMatterOnlyBeyondTheLimit` shows
  that only such responses depend on their chunks.

## Model

| member | source | states |
|---|---|---|
| `Alignment.LengthIsUpperBound` | src/file_change.rs:83-108 | no pairing of equal lines that never crosses is longer than the score the table computes |
| `Alignment.LengthIsReached` | src/file_change.rs:83-108 | some such pairing reaches that score, so the score is the length of a longest common subsequence |
| `Alignment.SplitIsLowerBound` | src/file_change.rs:132-139 | cutting both lists anywhere never gains: left plus right scores stay at most the total |
| `Alignment.SomeSplitIsExact` | src/file_change.rs:132-139 | for every cut of the first list some cut of the second keeps the total, the split the divide and conquer relies on |
| `Alignment.ReversedLength` | src/file_change.rs:87-97 | reading both lists backwards does not change the score |
| `Alignment.CommonPrefix` | src/file_change.rs:200-205 | equal leading lines may be paired off without losing a longest pairing |
| `Alignment.CommonSuffix` | src/file_change.rs:206-212 | equal trailing lines may be paired off without losing a longest pairing |
| `Alignment.SomethingInCommon` | src/file_change.rs:215-217 | the middle has a pairing at all exactly when some line text occurs on both sides |
| `Alignment.Scores` | src/file_change.rs:83-108 | entry j is the longest-common-subsequence length of the first list and the first j lines of the second, or its last j lines when reversed, for every j |
| `Alignment.BestSplit` | src/file_change.rs:136-138 | the last index with the greatest combined score |
| `Alignment.Boundary` | src/file_change.rs:132-139 | the chosen cut keeps the total score exactly |
| `Alignment.MatchSingle` | src/file_change.rs:120-131 | one line against a list pairs with the first equal line, or with none when there is none |
| `Alignment.Matches` | src/file_change.rs:110-154 | appends a strictly increasing pairing of equal lines that is a longest common subsequence, and leaves what was in the result alone |
| `Alignment.KeptLines` | src/file_change.rs:191-278 | the lines an insert/delete script keeps form a pairing, whatever the script |
| `Alignment.NoScriptIsCheaper` | src/file_change.rs:271-278 | no insert/delete script costs less than both list lengths minus twice a longest pairing |
| `FileChange.LinesSpellTheText` | src/file_change.rs:48-70 | the lines with their endings spell the text, and each is cut at its own line break |
| `FileChange.CuttingIsUnique` | src/file_change.rs:48-70 | a text has exactly one such cutting into lines |
| `FileChange.LeadingPairs` | src/file_change.rs:200-205 | pairs exactly the longest equal beginning |
| `FileChange.TrailingLines` | src/file_change.rs:206-212 | finds exactly the longest equal end of what follows it |
| `FileChange.CommonEnds` | src/file_change.rs:200-214 | the middle left over is what lies between the longest equal beginning and, after it, the longest equal end |
| `FileChange.TrimmedPairing` | src/file_change.rs:200-225 | prefix pairs, a longest pairing of the middle and suffix pairs together are a longest pairing of the whole files |
| `FileChange.MiddlePairs` | src/file_change.rs:215-222 | pairs the middle optimally, and gives up exactly when it has a line in common and more cells than the limit |
| `FileChange.GivesUpMeans` | src/file_change.rs:200-222 | between the longest common start and end the alignment gives up exactly when a line is on both sides and there are more than two million pairs of lines |
| `FileChange.Paired` | src/file_change.rs:200-225 | the full pairing is strictly increasing, pairs equal lines and is as long as any; none exactly when the trimmed middle is too large to align |
| `FileChange.UpTo` | src/file_change.rs:239-269 | extends the script up to the next pair with removed, added and context entries in that order |
| `FileChange.Script` | src/file_change.rs:232-270 | the entries that are not added spell the old lines and those that are not removed spell the new lines, with exact consecutive numbers and end-of-file marks |
| `FileChange.SidesCount` | src/file_change.rs:271-278 | the counted entries of a script add up to both sides |
| `FileChange.HunkRanges` | src/file_change.rs:279-293 | the ranges are ordered and apart, and an entry is covered exactly when a change is at most three entries away |
| `FileChange.PatchRest` | src/file_change.rs:279-297 | applying the remaining hunks, placed by their line numbers, to the remaining old lines gives the remaining new lines |
| `FileChange.LastEnding` | src/file_change.rs:307-311 | a text ends with a newline exactly when its last line has an ending |
| `FileChange.WholePairing` | src/file_change.rs:226-230 | a pairing as long as both lists pairs each line with its own position |
| `FileChange.SilentExactlyWhenEqual` | src/file_change.rs:226-311 | no added and no removed line, no change of endings and no change of the final newline are reported exactly when the texts are equal |
| `FileChange.EndingsAreBreaks` | src/file_change.rs:48-70 | some line ends with both characters exactly when a line feed stands behind a carriage return in the text, and with a line feed alone exactly when one stands anywhere else |
| `FileChange.EndingChangeMeans` | src/file_change.rs:72-81 | what is reported of the endings, in terms of the breaks of both texts: a style each, or an update of paired lines when both stay mixed |
| `FileChange.Between` | src/file_change.rs:191-322 | added plus removed is the least any insert/delete script can reach; applying the hunks to the old lines gives the new lines; hunks are the ordered ranges around the changes; no change is returned exactly when the texts or the trimmed middle exceed the limits; a change with nothing to show means equal texts; the reported line endings go from LF to CRLF exactly when the old text has only bare line feeds and the new one only pairs, and so for each direction, mixed texts and paired lines that differ |
| `Glob.LastPiece` | src/path_filter.rs:361-426 | a text matches a token list exactly when some cut gives its end to the last token and the rest matches the others |
| `Glob.ReachStep` | src/path_filter.rs:379-424 | which positions are reachable after one more token, in terms of those before |
| `Glob.StarStep` | src/path_filter.rs:386-391 | a star extends its reach by one byte exactly when that byte is no slash |
| `Glob.DirsStep` | src/path_filter.rs:392-401 | a directory token reaches beyond a slash exactly from some earlier reachable position |
| `Glob.StarRow` | src/path_filter.rs:386-391 | the in-place row after a star holds exactly the reachable positions |
| `Glob.DirsRow` | src/path_filter.rs:392-401 | the in-place row after a directory token holds exactly the reachable positions |
| `Glob.ByteRow` | src/path_filter.rs:402-421 | the in-place row after a one-byte token holds exactly the reachable positions |
| `Glob.LiteralsMatch` | src/path_filter.rs:370-375 | a list of literal bytes matches exactly the one text of that length, byte for byte after folding |
| `Glob.FirstAll` | src/path_filter.rs:385-385 | returning early at the token that takes the rest ignores only what would follow it |
| `Glob.MatchTokens` | src/path_filter.rs:362-426 | accepts a text exactly when it can be cut into one piece per token, each piece of the kind the token takes |
| `Tokens.RangeAt` | src/path_filter.rs:335-353 | reads one range of a bracket expression with its escapes, or finds none |
| `Tokens.BracketExpression` | src/path_filter.rs:330-355 | the loop reads what the recursive grammar of bracket expressions reads, with the bytes consumed |
| `Tokens.NextToken` | src/path_filter.rs:292-325 | one turn of the loop reads the next token and where it ends |
| `Tokens.Tokenize` | src/path_filter.rs:289-327 | the loop yields the token list of a pattern that `Patterns.TokensMean` reads from its bytes |
| `Tokens.TokensAreCanonical` | src/path_filter.rs:289-327 | every token list made from a pattern has stars and directory tokens only where the syntax allows them, with folded bytes |
| `Tokens.AllIsLast` | src/path_filter.rs:306-309 | the token that takes everything only ever comes last |
| `Tokens.RenderReadsBack` | src/path_filter.rs:289-355 | every such token list is the reading of some pattern: writing it out and reading it again gives the same tokens |
| `Tokens.DirsStartSegments` | src/path_filter.rs:306-311 | in every cut of a matching text, what a directory token takes starts at a segment boundary |
| `Patterns.ItemsAreRead` | src/path_filter.rs:330-355 | whatever entries a bracket expression is written with, escaped or not, it is read as their ranges up to its closing bracket |
| `Patterns.ItemsOf` | src/path_filter.rs:330-355 | and whatever is read as a bracket expression is written so |
| `Patterns.ClassIsRead` | src/path_filter.rs:316-320 | a negated or plain bracket expression is the token of its entries, and the next token starts behind its bracket |
| `Patterns.StarsMean` | src/path_filter.rs:301-315 | a run of stars is any number of directories or the rest only as a whole segment of two or more, and a star otherwise |
| `Patterns.AloneIsRead` | src/path_filter.rs:321-323 | any other byte, and a bracket that does not close, is the literal of that byte |
| `Patterns.FirstPiece` | src/path_filter.rs:361-426 | a text matches exactly when the first token takes what stands before some place and the other tokens match the rest |
| `Patterns.TokensMean` | src/path_filter.rs:289-426 | the tokens of every pattern match exactly the texts its bytes describe: escapes, wildcards, bracket expressions and everything that stands for itself |
| `Patterns.MatchPattern` | src/path_filter.rs:357-426 | so matching a pattern answers whether its bytes describe the text |
| `Patterns.PlainIsItself` | src/path_filter.rs:323-323 | a pattern without backslash, question mark, star or bracket describes exactly the texts that differ in letter case at most, and only on Windows |
| `Patterns.PlainTokens` | src/path_filter.rs:289-327 | its tokens are its bytes, folded, one each |
| `IgnoreRules.RulesAreWellFormed` | src/path_filter.rs:21-26 | every rule of a file has the tokens of a pattern |
| `IgnoreRules.LastMatchWins` | src/path_filter.rs:232-238 | a file decides exactly as its last applicable rule says, and not at all when none applies |
| `IgnoreRules.DecideEntry` | src/path_filter.rs:232-238 | the backward search over a file's rules answers that decision |
| `IgnoreRules.NearestScopeWins` | src/path_filter.rs:142-167 | an entry is ignored exactly when the nearest deciding file's last applicable rule says so |
| `IgnoreRules.Ignore.Live` | src/path_filter.rs:39-69 | starts with an empty cache over the files of the disk |
| `IgnoreRules.Ignore.Restored` | src/path_filter.rs:71-85 | starts from saved rules alone and never reads the disk |
| `IgnoreRules.Ignore.Local` | src/path_filter.rs:87-93 | a cached rule file is what a fresh read of that directory would give |
| `IgnoreRules.Ignore.Visit` | src/path_filter.rs:126-132 | caches that a directory holds no rules only when it was not read before, and leaves the known rule files as they are when the report is true |
| `IgnoreRules.Ignore.LocalSearch` | src/path_filter.rs:144-158 | the walk to the root with the cache answers as a fresh nearest-first search |
| `IgnoreRules.Ignore.OuterSearch` | src/path_filter.rs:159-166 | the first outer file that decides answers |
| `IgnoreRules.Ignore.IgnoredEntry` | src/path_filter.rs:142-167 | whatever was asked before, the answer is that of a fresh nearest-first, last-match-wins search, which `RuleLines.IgnoredMeans` reads from the texts of the files |
| `IgnoreRules.Ignore.IgnoredBeneath` | src/path_filter.rs:169-185 | an entry below a chosen scope is ignored exactly when a directory on the way to it, below the scope, is |
| `IgnoreRules.Ignore.LoadUpward` | src/path_filter.rs:98-107 | loads the rule files of a directory and of all its ancestors, and no others |
| `IgnoreRules.Ignore.Snapshot` | src/path_filter.rs:97-122 | keeps the text of every loaded file that has rules, and loads at least the ancestors of every root |
| `IgnoreRules.AncestorsAreOnTheWay` | src/path_filter.rs:98-107 | every directory whose rules may decide an entry is among those loaded for it |
| `IgnoreRules.SnapshotDecides` | src/path_filter.rs:71-122 | the restored rules decide an entry as the live rules do once its ancestors were loaded, though empty files were dropped |
| `IgnoreRules.SnapshotIsTransparent` | src/path_filter.rs:71-122 | the same for the answer as a whole, local and outer files together |
| `RuleLines.WritingIsRead` | src/path_filter.rs:262-285 | a rule written with or without exclamation mark, slash before and behind and blanks at the end is read as that rule |
| `RuleLines.ReadIsWritten` | src/path_filter.rs:262-285 | and every line read as a rule is written so |
| `RuleLines.NoRule` | src/path_filter.rs:262-285 | a line gives no rule exactly when it is empty, a comment, or nothing but exclamation mark, slashes and blanks |
| `RuleLines.OrdinaryLines` | src/path_filter.rs:262-285 | a glob with nothing special about it is read as a rule for any entry of that name; an exclamation mark before it negates, a slash before it anchors, one behind it asks for a directory |
| `RuleLines.NameSays` | src/path_filter.rs:232-285 | a plain name on its line ignores exactly the entries of that name, with an exclamation mark keeps them, with a slash before it ignores the one at that place, with one behind it only a directory |
| `RuleLines.LineIsRead` | src/path_filter.rs:21-26 | a line ended by a line feed, with a carriage return before it or not, or by the end of the file, is read without its ending |
| `RuleLines.FileDecides` | src/path_filter.rs:21-238 | a rule file decides an entry exactly as the last of its lines that has a rule for it says |
| `RuleLines.AncestorsAreAbove` | src/path_filter.rs:142-158 | the search goes through exactly the directories above the path |
| `RuleLines.IgnoredMeans` | src/path_filter.rs:142-167 | a path is ignored exactly when, of the rule files above it, the nearest that says anything about it says so, or none does and the first outside that says anything does; all read from the texts of the files |
| `JsonRoundTrip.InsertAdds` | src/json.rs:217-246 | inserting a member keeps the keys ascending and refuses exactly a key already there |
| `JsonRoundTrip.NumberReadsBack` | src/json.rs:259-280 | every number of the grammar is read whole, whatever follows it that is not part of a number |
| `JsonRoundTrip.NumberGives` | src/json.rs:259-280 | whatever is read as a number follows the number grammar |
| `JsonRoundTrip.TextReadsBack` | src/json.rs:290-327 | every string survives escaping and reading, including quotes, control characters and surrogate escapes |
| `JsonRoundTrip.ValueReadsBack` | src/json.rs:191-249 | a printed value is read back from the front of any text, at any depth that still has room for it |
| `JsonRoundTrip.ParsedIsWellFormed` | src/json.rs:191-249 | whatever is read has numbers of the grammar, ascending keys and no nesting beyond the limit |
| `JsonRoundTrip.RoundTrip` | src/json.rs:60-149 | in either layout a value survives printing and parsing exactly when its numbers follow the grammar, its keys ascend and it is nested at most 64 deep |
| `JsonRoundTrip.DeeperMovesIn` | src/json.rs:66-101 | one level deeper every line of the indented text begins two blanks further in, and nothing else changes |
| `JsonRoundTrip.ListIsIndented` | src/json.rs:66-101 | the indented text of a list has its value on a line of its own, moved in by two blanks, between the lines of its brackets |
| `JsonRoundTrip.ReencodingIsIdentity` | src/json.rs:152-160 | encoding what was parsed and parsing it again changes nothing |
| `JsonGrammar.CharParses` | src/json.rs:290-345 | every way to write a character in a string is read as that character |
| `JsonGrammar.TextDenotes` | src/json.rs:290-345 | whatever is read as a string is spelled as the grammar of strings has it |
| `JsonGrammar.ValueParses` | src/json.rs:191-249 | whatever denotes a value by the grammar is read as that value, in front of any text that does not continue a number |
| `JsonGrammar.ValueDenotes` | src/json.rs:191-249 | whatever is read as a value denotes it by the grammar |
| `JsonGrammar.MembersParse` | src/json.rs:217-246 | the members of an object, in any order and with different keys, give the entries in key order |
| `JsonGrammar.ParsesWhatItDenotes` | src/json.rs:152-249 | a text parses to a value exactly when the grammar of RFC 8259 has it denote that value, no object in it repeats a key and it is nested at most 64 deep |
| `JsonGrammar.DenotesOnce` | src/json.rs:152-249 | a text denotes at most one such value |
| `JsonGrammar.PrintedDenotes` | src/json.rs:60-149 | the compact and the indented text of a value both denote it |
| `JsonParser.Parser.Whitespace` | src/json.rs:176-180 | moves the position past exactly the whitespace ahead |
| `JsonParser.Parser.Number` | src/json.rs:259-280 | reads what the number grammar reads and stops where it stops |
| `JsonParser.Parser.Unicode` | src/json.rs:329-344 | reads one scalar from a hexadecimal escape or a surrogate pair, and refuses lone surrogates |
| `JsonParser.Parser.Text` | src/json.rs:290-327 | reads a string up to its closing quote with every escape, or fails as the grammar does |
| `JsonParser.Parser.Items` | src/json.rs:201-215 | reads the values of an array up to its bracket |
| `JsonParser.Parser.Members` | src/json.rs:217-246 | reads the members of an object up to its brace and refuses a repeated key |
| `JsonParser.Parser.ParsedValue` | src/json.rs:191-249 | the parser with a moving position reads exactly what the recursive grammar reads on the text ahead |
| `JsonParser.ParseDocument` | src/json.rs:152-160 | accepts a text exactly when it is one value with only whitespace around it |
| `JsonParser.Write` | src/json.rs:103-149 | appends the compact text of a value to what was written before |
| `JsonParser.WriteString` | src/json.rs:110-131 | appends the escaped text of a string, character by character |
| `Redact.FirstPatternMatches` | src/redact.rs:67-71 | the pattern that masks a place is the first in the list that occurs there |
| `Redact.ScannedIsSettled` | src/redact.rs:110-125 | what was shown before the safe end, and where scanning stopped, stay the same whatever bytes follow |
| `Redact.HeldSuffix` | src/redact.rs:96-109 | the held suffix is the longest one that could still begin a pattern |
| `Redact.BytePrefix` | src/redact.rs:92-126 | finished, everything is shown masked; otherwise what is shown is the beginning of the masked text for every continuation |
| `Redact.ChunksDoNotMatter` | src/output.rs:201-213 | any chunking written and finished gives the mask of all bytes together |
| `Redact.Spool.Write` | src/output.rs:201-207 | shows what is settled, keeps the rest pending |
| `Redact.Spool.Finish` | src/output.rs:208-213 | shows the mask of what was still pending |
| `Redact.SpoolAll` | src/output.rs:201-213 | the file of a stream written in any chunks is one mask of the whole stream |
| `Redact.HeldMayBegin` | src/redact.rs:94-109 | what a spool keeps back could still begin a pattern, unless a match ran into it |
| `Redact.SettledByteIsHeldExactly` | src/redact.rs:94-125 | some byte a write keeps back can no longer be masked exactly when going on over the kept bytes, from match to match and only over places where no longer match can still arrive, meets a byte where nothing matches |
| `Redact.SettledMeans` | src/redact.rs:94-125 | the same for any rest: some of its bytes is shown as itself by the mask of every continuation exactly when that walk meets a plain byte |
| `Redact.HeldAtTheSafeEnd` | src/redact.rs:94-125 | while no pattern is a proper beginning of a later one, no such byte is kept back unless a match ran across the safe end |
| `Redact.ShownMeans` | src/redact.rs:61-84 | a byte is shown as itself exactly when the left-to-right scan reaches it and no pattern occurs there; the mask then has it between the masks of what is before and behind |
| `Redact.FirstByteIsMasked` | src/redact.rs:61-84 | wherever a pattern occurs, its first byte is masked |
| `Redact.OccurrenceIsHidden` | src/redact.rs:61-84 | bytes of an occurrence are shown only behind the match that hides its first byte, and such a match ends inside the occurrence only when it began before it or belongs to an earlier pattern |
| `Secrets.RegisteredIsPattern` | src/redact.rs:33-51 | every registered secret and its escaped form are among the patterns, unless empty |
| `Secrets.SecretIsNeverShown` | src/redact.rs:33-84 | wherever a registered secret or its escaped form occurs, its first byte is masked |
| `Secrets.SecretIsHiddenWhole` | src/redact.rs:33-84 | because longer secrets come first, a byte of a secret is shown only when a match that began before the secret overlaps it |
| `Secrets.PlainByteIsHeld` | src/redact.rs:94-95 | with the secrets abQ and xa, the last byte of xab is kept back although every continuation shows it, against the comment there |
| `Secrets.PlainByteIsHeldByEscape` | src/redact.rs:94-95 | with a secret that ends in two backslashes, whose escaped form it begins, such a byte is kept back although no match ran across the safe end |
| `Redact.ByteWindow` | src/redact.rs:63-84 | one page of the bytes: the pieces that begin on it, a match as its mark and anything else as it is |
| `Redact.WindowShows` | src/redact.rs:61-84 | the bytes are cut into first matches and single bytes from the left, and a page shows exactly the pieces that begin on it |
| `Redact.PagesJoin` | src/redact.rs:61-84 | adjacent pages concatenate to the page over both |
| `Redact.PagesShowTheMask` | src/redact.rs:61-84 | pages that cover the bytes concatenate to the mask of all of them |
| `RedactCursor.CursorSplitsText` | src/redact.rs:168-176 | a cursor between matches moves to the length of the masked text before it, and the mask splits there |
| `RedactCursor.CursorLeavesMatch` | src/redact.rs:172-174 | a cursor inside a match moves to the end of its replacement |
| `RedactCursor.FindAll` | src/redact.rs:164-167 | finds the places of all non-overlapping occurrences, left to right |
| `RedactCursor.ReplaceOne` | src/redact.rs:168-176 | replacing the occurrences from the last to the first keeps text and cursor in step |
| `RedactCursor.ReplacePattern` | src/redact.rs:164-177 | one pattern's occurrences are masked and the cursor moved with them |
| `RedactCursor.TextCursor` | src/redact.rs:159-180 | the text is masked pattern by pattern, the cursor follows and stays inside the text |
| `TextMask.NoPatternLeft` | src/redact.rs:193-203 | a pattern that cannot share a byte with the mark does not occur in what replacing the patterns one after the other leaves, whatever the other patterns are |
| `TextMask.EachIsOneScan` | src/redact.rs:61-203 | when no pattern can share a byte with the mark and no two different patterns overlap in the text, replacing them one after the other shows what one scan shows |
| `TextMask.OccurrenceComesFrom` | src/redact.rs:193-203 | an occurrence of such a pattern in what is shown was one in the text, with the same rest shown behind it |
| `MaskedBytes.SpelledPrefix` | src/redact.rs:193-203 | one text begins another exactly when its bytes do |
| `MaskedBytes.MaskedAsBytes` | src/redact.rs:193-203 | the bytes of a masked text are its masked bytes |
| `MaskedBytes.PatternsAreTexts` | src/redact.rs:33-51 | the byte patterns of registered secrets are the bytes of texts in the same order |
| `MaskedBytes.ByteLengthIsLength` | src/todo.rs:239-250 | the limit of a text counts the bytes of its encoding |
| `MaskedBytes.SecretInsideMark` | src/redact.rs:193-203 | with the secret ac, which stands in the mark, a masked text still contains it and differs from the one scan |
| `MaskedBytes.OverlapsDiffer` | src/redact.rs:61-203 | with the secrets abQ and xa on xabQ the text mask and the byte mask differ |
| `Utf8.FirstCharMeans` | src/utf8.rs:20-27 | a first character is whole exactly when some scalar's encoding begins the bytes, and unfinished exactly when the bytes are a proper beginning of an encoding |
| `Utf8.CheckMeans` | src/utf8.rs:30-38 | the validation accepts exactly concatenated encodings of scalars |
| `Utf8.CheckedPartIsSettled` | src/utf8.rs:15-29 | checking can resume from the unfinished rest alone |
| `Utf8.RestIsUnfinished` | src/utf8.rs:22-36 | the rest kept is at most three bytes and a proper beginning of an encoding |
| `Utf8.ChunksAddUp` | src/utf8.rs:11-40 | pushing chunks accepts and keeps exactly what checking them together would |
| `Utf8.ChunksDecideTheWhole` | src/utf8.rs:11-48 | for every chunking all pushes and the finish succeed exactly when the whole is well-formed UTF-8 without a zero byte |
| `Utf8.Text.Refill` | src/utf8.rs:15-29 | completing the kept bytes from the new chunk loses and repeats no byte |
| `Utf8.Text.Push` | src/utf8.rs:11-40 | accepts a chunk exactly when it has no zero byte and all bytes pushed so far are well-formed up to an unfinished end, which it keeps |
| `Utf8.Text.Finish` | src/utf8.rs:42-48 | accepts exactly when all the bytes pushed are well-formed UTF-8 |
| `Utf8.IsText` | src/utf8.rs:51-63 | a stream up to its end is text exactly when it is well-formed UTF-8 without a zero byte, whatever the reads return |
| `Http.BreakStays` | src/http.rs:142-148 | the first blank line found stays the first when more bytes arrive |
| `Http.ChunksAddUp` | src/http.rs:134-168 | a response whose header ends in time, or is unreadable anyway, is decoded alike in any chunks |
| `Http.CutsMatterOnlyBeyondTheLimit` | src/http.rs:134-168 | every chunking gives the outcome of one feed exactly when the terminator ends within 65537 bytes or the header is unreadable anyway |
| `Http.HeaderThenBody` | src/http.rs:134-168 | the bytes before the first blank line are read as the header and exactly those behind its four bytes are the body, however much came before; when the header cannot be read, feeding fails |
| `Http.NothingBeforeTheEnd` | src/http.rs:142-148 | without a blank line nothing is handed on, and more than 65536 bytes fail |
| `Http.ResponseIsDecoded` | src/http.rs:134-168 | any chunks of a response whose header ends in time hand on exactly its header and its body |
| `Http.Decoder.Feed` | src/http.rs:134-168 | keeps header bytes until the blank line, then hands the body on; fails exactly when the header is too long or unreadable or the observer refuses, and a refusal leaves the state as an acceptance would |
| `Http.WireKeepsMeaning` | src/http.rs:110-121 | percent-encoding path and query keeps what they decode to, with stray percent signs too |
| `Http.WireTwice` | src/http.rs:110-121 | encoding what was encoded changes nothing |
| `Http.WireIsClean` | src/http.rs:110-121 | what goes out is printable ASCII without quotes, angle brackets, backslash, brackets, caret, braces, bar or backquote, and every percent sign starts an escape |
| `Http.CleanGoesOut` | src/http.rs:110-121 | a text goes out unchanged exactly when it has that form already |
| `Http.OthersAreEscaped` | src/http.rs:114-121 | every other byte goes out as a percent sign and its two upper-case digits |
| `Http.OriginMeans` | src/http.rs:102-107 | the origin ends at the first slash, question mark or hash behind the first colon and two slashes, or at the end |
| `Http.OriginIsKept` | src/http.rs:101-109 | the origin is kept and found again in the encoded address |
| `Http.WireFormIsFaithful` | src/http.rs:99-123 | for every address: same origin, same decoding of the rest, behind the origin only bytes that may go out, unchanged exactly when that was so before, and a second encoding changes nothing |
| `Http.WireUrl` | src/http.rs:101-123 | the loop produces that wire form: only bytes that may go out behind the same origin, with the same meaning |
| `Inbox.Entries.Push` | src/inbox.rs:59-69 | refuses beyond eight pending prompts, else appends under the next identifier |
| `Inbox.Entries.Selected` | src/inbox.rs:103-116 | the deliverable messages and what remains pending |
| `Inbox.Entries.Commit` | src/inbox.rs:118-120 | moves the selected messages out of the pending entries and marks them unacknowledged |
| `Inbox.Entries.Acknowledge` | src/inbox.rs:89-92 | drops at most as many as are unacknowledged, oldest first |
| `Inbox.DeliverableMeans` | src/inbox.rs:123-131 | an entry is deliverable exactly when it is recorded and has attachments or does not start with a slash |
| `Inbox.AcceptanceSelects` | src/inbox.rs:99-121 | an acceptance takes exactly the recorded ordinary messages and leaves exactly the others, both in submission order |
| `Inbox.StepKeepsPlaces` | src/inbox.rs:50-121 | each step moves identifiers between pending, accepted, popped and drained without losing or doubling one |
| `Inbox.AcceptInOrder` | src/inbox.rs:99-131 | what an acceptance takes comes after everything accepted before |
| `Inbox.EveryRunIsSound` | src/inbox.rs:1-5 | after any run every prompt pushed is in exactly one of pending, accepted, popped and drained; accepted identifiers strictly increase over the run and name recorded ordinary messages; the interface was shown a prefix of them |
| `Transcript.ResultsPay` | src/agent.rs:324-354 | results for calls settle exactly those calls among what is owed |
| `Transcript.UsersKeepPairing` | src/agent/input.rs:28-32 | user messages keep a transcript paired |
| `Transcript.ResultHasItsCall` | src/agent.rs:313-320 | a result belongs to the nearest message before it that is no result, and that message called for it |
| `Transcript.FollowsBoth` | src/agent/execution.rs:23-67 | recording one group of calls and then another is recording them together: results in source order, launches added up |
| `Transcript.ChainDone` | src/agent/steps.rs:48-72 | a finished chain of steps left the transcript alone and launched what its combined result says |
| `Transcript.WorkersLaunched` | src/agent/execution.rs:200-211 | every worker started counts as launched, however it ended |
| `Execution.Agent.ToolResult` | src/agent.rs:324-339 | records a result in the transcript, or in the chain of a running steps call |
| `Execution.Agent.CancelCalls` | src/agent.rs:341-354 | gives each call exactly one not-executed result and launches nothing |
| `Execution.Agent.Gated` | src/agent/permission.rs:44-53 | answers whether the call must run on its own, from the level, the grants and the access of that moment |
| `Execution.Agent.Permit` | src/agent/permission.rs:68-180 | lets a call run exactly when it is allowed without asking, or the user was asked and approved and the level did not become Read meanwhile |
| `Execution.Agent.Launch` | src/agent/execution.rs:84-125 | a tool starts only after a check of its own: together with others only one that was not gated, alone only one that passes; and only when the conversation as it is has been saved |
| `Gate.UngatedIsAllowedInside` | src/agent/permission.rs:42-53 | a call may join a batch exactly when the level allows it without asking and it touches nothing outside the folder |
| `Gate.LaunchedWithin` | src/agent/permission.rs:68-180 | every tool launched stayed within what its check allowed: at Read only reads inside the folder, at Workspace outside paths only with remembered grants or an approval, browser control only at Full, and together with others nothing outside |
| `Gate.OneMoreStart` | src/agent/permission.rs:68-180 | starting a tool keeps the record whole: every tool launched has its own check that let it start |
| `Receipts.ToldBoth` | src/agent/execution.rs:23-67 | what explains the results of some calls and then of others explains them together |
| `Receipts.AllRan` | src/agent/execution.rs:23-67 | when nothing failed, no tool's end was lost and every check let its call run, every ordinary call ran, every question was answered and every step ran unless the result of one stopped the others |
| `Execution.Agent.Settle` | src/agent/execution.rs:91-143 | runs, refuses or asks; a question saved for resume records nothing; a tool starts only after a check of its own that lets it; a call is refused only when a check does not let it run |
| `Execution.Agent.ExecuteOne` | src/agent/execution.rs:69-178 | on every path one result for the call, and one not-executed result for each later call when it fails; it succeeds exactly when no save and no event failed and no question was saved for later, and then start and end of the call were shown and the result is saved |
| `Execution.Agent.RunSteps` | src/agent/steps.rs:48-71 | runs steps in order, results in the order of the steps, nothing in the transcript; all of them unless something failed or the result of one stopped the others |
| `Execution.Agent.ExecuteSteps` | src/agent/steps.rs:38-155 | one combined result for the call, with its own steps in order, or a refusal exactly when its steps cannot be run; it succeeds exactly when nothing failed |
| `Execution.Agent.ExecuteParallelBatch` | src/agent/execution.rs:180-239 | one result per call of the batch in source order, recorded only after all workers finished; the tools start together, shown and saved before, unless something failed, and each result is its worker's |
| `Execution.Agent.Collect` | src/agent/execution/declared.rs:74-122 | workers may report in any order or not at all; each outcome is its worker's own, or unknown when that worker died; unless a report could not be saved, the end of each that reported was shown |
| `Execution.Agent.ExecuteDeclaredBatch` | src/agent/execution/declared.rs:12-166 | the same for a declared batch, on every failure path |
| `Execution.Agent.BatchEnd` | src/agent/execution.rs:34-53 | the longest run of at most four neighbouring calls of one mode with distinct identifiers, each checked in order and none gated; a gated or serial call goes alone |
| `Execution.Agent.ExecuteNext` | src/agent/execution.rs:54-64 | the calls from here up to the end of the longest run that goes together get their results, or all that are left do; such a run starts together |
| `Execution.Agent.ExecuteCalls` | src/agent/execution.rs:23-67 | for every call list and every failure point each call gets exactly one result in source order, and exactly the tools those results speak of were launched, each after a check of its own; it succeeds exactly when nothing failed and no question was saved for later; a call is not executed only behind a failure or such a question, and then none after it is; every result says what became of its call, and on success the end of each was shown and all is saved |
| `Turn.AllPaid` | src/agent.rs:282-320 | a paired transcript, an answer and a result for each of its calls is paired again |
| `Turn.QuestionLeft` | src/agent.rs:313-320 | with every result but a question's, exactly that question is owed |
| `Turn.AcceptInput` | src/agent/input.rs:10-38 | moves exactly the deliverable messages from inbox to transcript in order, or leaves both as they were; it succeeds exactly when nothing failed |
| `Turn.NextCompletion` | src/agent/compaction.rs:42-167 | every request is made from a transcript with all its calls answered, whose size was compared with the budget, and a context valid for it; the transcript only grows; after a request that was too long the context is replaced before the next; an answered request is counted when measured and its state anchored at its end; without an answer something failed |
| `Turn.Handle` | src/agent.rs:273-320 | an answer and its calls leave the transcript paired, or waiting for one saved question; it succeeds exactly when nothing failed and no question is open, and then every call was executed and all is saved |
| `Turn.DriveTurn` | src/agent.rs:263-322 | every request of the turn sees a transcript with all calls answered, each a prefix of the next, and a context valid for it, the one the request before left unless it was replaced; wherever the turn stops at most one saved question is open; it succeeds exactly when nothing failed and no question is open, with an answer without calls as the last message and every call of the answers before executed |
| `Turn.PendingCall` | src/agent/ask.rs:84-105 | finds the call of the last answer that asked the question, or none when there is none |
| `Turn.AnswerSettles` | src/agent/ask.rs:63-64 | one answer settles a saved question |
| `Turn.NoResultWithoutItsCall` | src/context.rs:289-291 | every result that a request of a turn shows stands behind the call it belongs to, with nothing but results between them |
| `Turn.TurnRequestsGrow` | src/agent/projection.rs:101-105 | between two replacements of the context, the requests of a turn that carry no note, no repeated state and no unanswered state each begin with all the earlier ones |
| `Turn.ReturnInput` | src/agent/retraction.rs:20-43 | withdraws input exactly when it is not empty and every message since the checkpoint is one of the user's; the context is the earlier one with those messages withdrawn, and stays valid |
| `Turn.Record` | src/agent.rs:283-293 | an answer is recorded under a context that counts it exactly when it was measured, and nothing of the context lies at the end of the transcript any more |
| `Turn.Install` | src/agent/compaction.rs:323-340 | a context that cannot be saved is taken back |
| `Turn.CompactIfNeeded` | src/agent/compaction.rs:169-343 | on every path the context stays valid and is saved when it changes; it stays as it is below the budget, unless forced, becomes the one with previews when those suffice, and otherwise ends a summary at the end or exactly where the recent part begins |
| `Turn.Summarize` | src/agent/compaction.rs:225-343 | the summary's end is the recent boundary, on the transcript of the moment, and the boundary moves forward |
| `Turn.Anchor` | src/agent/compaction.rs:117-123 | an answered request is counted when measured, its state is anchored, and the context stays valid |
| `Turn.ContinueQuestion` | src/agent/ask.rs:42-82 | the gap is filled exactly once, before any further request, or the question stays exactly as it was; the context stays valid throughout; answered, the turn goes on to an answer without calls, unless something fails or a question is saved again |
| `Projection.Project` | src/context.rs:321-355 | the one-pass loop shows the instructions, the archive of older requests if there is one, the summary with its boundary unless it is empty, and then exactly the messages from the boundary that were not withdrawn, each once, in order and in its form, with each state behind exactly the messages it was sent behind |
| `Projection.ProjectedShows` | src/context.rs:321-377 | the projection read as a whole: what it starts with, which messages and states it shows, where, and in which form |
| `Projection.StatesShown` | src/context.rs:344-353 | a request shows the visible states, each once, in the order they were sent |
| `Projection.AcceptedIsShownLast` | src/context/state.rs:67-81 | the state an accepted request sent is the last one shown from then on |
| `Projection.RequestMeans` | src/agent/projection.rs:44-65 | a request is the projection, the new state if any, and a note exactly when it would end in the instructions or in an answer without calls |
| `Projection.StatesAreNeighbours` | src/context.rs:344-348 | the states due before one message are neighbours in the sorted list |
| `Projection.LaterProjection` | src/context.rs:321-355 | a longer transcript and later states project to an extension of what was sent |
| `Projection.RequestExtends` | src/agent/projection.rs:44-65 | an accepted request with its state anchored is the beginning of every later projection |
| `Projection.ExtendsExactlyWhenFixed` | src/agent/projection.rs:44-65 | requests grow by extension only exactly when the request carried no note of its own and no state equal to the visible one |
| `Projection.RequestsGrow` | src/agent/projection.rs:218-224 | over a whole run of such requests every request begins with all the earlier ones |
| `PendingState.SectionsCutOff` | src/agent/projection.rs:13-20 | cutting a state at its first section header gives back the lasting instructions, when those contain no header |
| `PendingState.HeaderCutsBase` | src/agent/projection.rs:13-20 | a header inside the instructions cuts them short |
| `PendingState.NoReportLeft` | src/agent/projection.rs:113-122 | after a request was accepted every report is marked as seen |
| `PendingState.PendingMeans` | src/agent/projection.rs:106-143 | behind the instructions every report no visible state has and every finished process is sent; with neither, the instructions alone, exactly when the last state lacks them |
| `PendingState.NothingPendingTwice` | src/agent/projection.rs:106-143 | in an unchanged environment with completions delivered nothing is sent again, exactly when nothing was sent or the instructions contain no section header |
| `PendingState.HeaderIsSentForever` | src/agent/projection.rs:106-143 | with a header among the instructions, every request of every run sends its state, whatever the context |
| `PendingState.HeaderIsAlwaysPending` | src/agent/projection.rs:106-143 | in any context such an environment leaves a state to send |
| `PendingState.TitleBringsHeader` | src/agent/environment.rs:158-190 | a plan whose title contains a section header brings it into the instructions, behind whatever precedes the plan |
| `PendingState.HeaderIsATitle` | src/todo.rs:73-108 | a plan titled with a section header is valid, so a call can set it |
| `PendingState.ToolLoopExtends` | src/agent/projection.rs:101-105 | in a tool loop only the first request sends state and each request extends the earlier ones |
| `Compaction.LongerCostsMore` | src/agent/compaction.rs:352-383 | a longer recent part never costs less, with the saturating sums and rounded estimates |
| `Compaction.CostMeans` | src/agent/compaction.rs:352-383 | the cost is the estimate of all text bytes plus every token reported for an answer and every token of media, up to the greatest size |
| `Compaction.EstimateMeans` | src/context/measurement.rs:159-167 | the estimate is the least number of tokens that suffices for the bytes, at four bytes each or at the measured rate, never more than one for a byte |
| `Compaction.RecentBoundary` | src/agent/compaction.rs:345-395 | the least place above the start that is no result, not withdrawn and whose suffix fits the budget; the end exactly when there is none or the start itself fits |
| `Compaction.ResultsKeepTheirCalls` | src/context.rs:289-291 | in a sound context every result at or behind the boundary has its call there, and neither is withdrawn |
| `Compaction.ShownWithItsCall` | src/context.rs:321-355 | every result that a request shows stands behind the call it belongs to, with nothing but results between them |
| `Compaction.WithdrawnValidates` | src/agent/retraction.rs:20-43 | withdrawing the user's messages since an earlier context keeps that context valid for the transcript of now |
| `Compaction.SummarizedValidates` | src/agent/compaction.rs:238-249 | the next context passes the ordering and boundary clauses of the validation |
| `Compaction.ResultsArePreviewed` | src/agent/compaction.rs:202-212 | after previews were chosen exactly the tool results are shown as previews, of 512 to 2048 and a twelfth of the budget between |
| `Compaction.ResultsStayWhole` | src/agent/compaction.rs:238-249 | after a summary the messages shown lie behind it and their tool results are whole |
| `Compaction.SummaryIsShown` | src/context.rs:330-343 | the summary stands once, behind the instructions and the archive and before every state and message |
| `Compaction.AcceptedValidates` | src/context/state.rs:67-81 | anchoring a state at the end of the transcript keeps the ordering and boundary clauses |
| `Compaction.ObservedValidates` | src/context/measurement.rs:38-50 | counting a request up to its last message keeps the context valid |
| `Compaction.OutputValidates` | src/agent.rs:283-293 | marking the answer that is recorded next keeps the context valid for the transcript with it |
| `Compaction.ValidatesStays` | src/context.rs:274-306 | a valid context stays valid while the transcript grows by messages of which the first is no result |
| `Compaction.InsideStays` | src/context.rs:274-306 | a context whose positions lie before the end stays valid whatever follows |
| `Permissions.BeginMeans` | src/permissions.rs:391-421 | a request gets an identifier exactly when a surface shows it, goes to the end of the queue exactly when it is also saved, and reaches the conversation's journal exactly when it is the main agent's in a bound session |
| `Permissions.DecideMeans` | src/permissions.rs:356-388 | a decision takes effect exactly when its request waits and all its events can be saved: request out of the queue, decision recorded, grants remembered; any other changes nothing but the journal |
| `Permissions.EveryRunIsSound` | src/permissions.rs:356-450 | over any interleaving identifiers are never reused, no request is both waiting and decided, each is answered at most once and with what was decided |
| `Permissions.OutcomeEnds` | src/permissions.rs:424-442 | a wait that ended left neither request nor decision behind |
| `Permissions.WaitMeans` | src/permissions.rs:424-442 | one look of a wait ends it with the decision, which is taken, or else when it was cancelled or nobody can answer, and then only its own request leaves the queue |
| `Permissions.LevelIsSet` | src/permissions.rs:287-296 | a level is set exactly when its event can be saved or nothing has to be, and nothing else changes |
| `Permissions.GoneForever` | src/permissions.rs:356-450 | after its outcome a request is never decided or answered again, whatever follows |
| `Permissions.AssessedMeans` | src/permissions.rs:319-340 | allowed exactly at Full, for reads inside the folder at Read, and at Workspace inside it or when every grant needed is covered by a remembered one of the same kind and place and the same identity, or the same target when neither has one; unavailable exactly for anything else at Read; asked otherwise |
| `Permissions.RememberedIsAllowed` | src/permissions.rs:146-155 | an access whose grants are remembered is allowed at Workspace |
| `Permissions.DecisionRemembers` | src/permissions.rs:371-383 | remembering a decision remembers every grant the request needs |
| `Permissions.RememberedStaysAllowed` | src/permissions.rs:302-340 | a remembered access stays allowed at Workspace until one of its grants is revoked or the conversation is bound again |
| `Permissions.PartialDecision` | src/permissions.rs:364-377 | the events a failing decision saved remember exactly the first grants it needs |
| `Permissions.JournalAgrees` | src/permissions/journal.rs:90-130 | after each step replaying the journal gives the level and the grants, except exactly when a decision failed after saving a grant nobody remembers, or the default changed under a session that never said its level |
| `Permissions.CleanRunAgrees` | src/permissions/journal.rs:90-130 | the same over any run without such a step |
| `Permissions.ResumeRestores` | src/permissions.rs:452-469 | after any run of a session, resuming it restores the level exactly when the session says one or the default is what it was, and the grants together with exactly those failed decisions left in the journal; nothing that was waiting comes back |
| `Permissions.FailedDecisionLeaks` | src/permissions.rs:364-377 | a run from a start state to a failed decision after which resuming remembers a grant that was never remembered, against the comment there |
| `Permissions.DefaultMovesLevel` | src/permissions.rs:452-469 | a run in which a session without a level of its own is resumed at another level than it was at |
| `Permissions.RunTells` | src/permissions/journal.rs:90-130 | over any run of a session the journal's grants are the remembered ones and, apart from them, exactly those that failed decisions left |
| `SharedPermissions.Shared.Assess` | src/permissions.rs:319-340 | the verdict of the level, the access and the remembered grants of one snapshot, which allows an outside access at Workspace exactly when each grant it needs is covered by a remembered one, field by field |
| `SharedPermissions.Shared.Begin` | src/permissions.rs:391-421 | as the step, with the identifier one above every earlier one |
| `SharedPermissions.Shared.Decide` | src/permissions.rs:356-388 | as the step; a failed decision leaves queue, decisions, grants and level as they were |
| `SharedPermissions.Shared.WaitOnce` | src/permissions.rs:424-434 | as one look of the waiting loop under the lock |
| `SharedPermissions.Shared.Revoke` | src/permissions.rs:302-312 | as the step; a revocation that cannot be saved changes nothing |
| `SharedPermissions.Shared.Replay` | src/permissions/journal.rs:91-130 | the last level set and the grants still remembered |
| `SharedPermissions.Shared.Bind` | src/permissions.rs:454-469 | as the step: queue and decisions cleared, level and grants replayed |
| `Plans.TaskReadsBack` | src/todo.rs:18-55 | a task comes back from its value exactly when it is valid |
| `Plans.ParseTasks` | src/todo.rs:264-282 | the loop with a set of identifiers accepts at most forty tasks with distinct identifiers, all or none |
| `Plans.PlanReadsBack` | src/todo.rs:73-119 | a plan comes back from its value exactly when it is valid |
| `Plans.RequiredMeans` | src/todo.rs:239-262 | a required text has something that is not whitespace, fits its limit in bytes and holds no control character, and any such text will do |
| `Plans.SetPlanFails` | src/todo.rs:94-108 | a plan is set unless the revisions are used up, a field is not as it must be, or the whole would be longer than 32 KiB |
| `Plans.SavedPlanReadsBack` | src/todo.rs:94-108 | the plan a set call makes is one revision on, has distinct task identifiers, and its encoded text parses back to the same plan |
| `Todo.LatestInCalls` | src/todo.rs:315-355 | the last plan among the calls of one answer, from the first results of the run after it |
| `Todo.PlanInStepsMeans` | src/todo.rs:292-301 | the steps of a call leave the plan of the last of them that was a plan call and succeeded |
| `Todo.OthersMakeNoPlan` | src/todo.rs:315-355 | only a call that set a plan, or ran such calls as its steps, made one |
| `Todo.Latest` | src/todo.rs:304-363 | the backward scan finds the last plan in the order of the calls, each read from the first result for its call in the run right after it |
| `Todo.SetIsLatest` | src/todo.rs:303-363 | after a set call the latest plan is the one read from its masked result, or the previous one when none can be read; it is the plan that was set, one revision on, exactly when masking keeps every text of that plan and the names of the fields it needs |
| `Todo.SecretTaskIsForgotten` | src/todo.rs:18-55 | with a secret equal to a task's identifier the plan that was set is not read back and the latest stays the previous one |
| `Todo.PlansAddUp` | src/todo.rs:304-363 | plans made before an answer stay the plans made before it, whatever is recorded after |
| `MaskedPlans.MaskedTaskReadsBack` | src/todo.rs:18-55 | a task comes back from its masked value exactly when masking keeps it |
| `MaskedPlans.MaskedPlanReadsBack` | src/todo.rs:73-119 | a plan comes back from its masked value exactly when masking keeps it |
| `MaskedPlans.PlanKeptMeans` | src/redact.rs:193-203 | a plan none of whose texts contains the mark is kept exactly when no pattern occurs in its texts or in the names of the fields it needs |
| `MaskedPlans.MaskedIdHidesPlan` | src/todo.rs:18-30 | a secret inside the identifier or the status of one task hides the whole plan |
| `MaskedPlans.NoteNameIsMasked` | src/todo.rs:46-55 | with the secret note, a plan whose note is empty is kept although its value changes: a missing note is an empty one |
| `MaskedPlans.LookupMasked` | src/redact.rs:205-221 | a field of a masked object is found under its name exactly when masking keeps that name, with its value masked |
| `Masking.MaskedText` | src/redact.rs:193-203 | masks with each pattern in turn, skipping those that do not occur |
| `Masking.MaskedIsMarked` | src/redact.rs:193-203 | masking leaves a text as it is, or one with the mark in it |
| `Masking.KeptMeans` | src/redact.rs:193-203 | a text without the mark is left alone exactly when no pattern occurs in it |
| `Masking.KeptWithMark` | src/redact.rs:193-203 | a text with the mark is left alone when no pattern but the mark itself occurs in it |
| `Masking.UndoneMask` | src/redact.rs:193-203 | but not only then: two secrets that undo each other around a mark leave such a text alone |
| `Masking.MaskKeepsForm` | src/redact.rs:205-221 | a masked value has the numbers and the depth of the value, and its keys ascend though masked keys may coincide |
| `Masking.MaskedReadsBack` | src/agent.rs:324-339 | the encoded text of a masked value parses back to it |

## Left out

- FileChange.Between: changes of several files in one, and `Change::redacted`, `several` and `file`, which copy fields, are not modelled; the words of the note about line endings are a datatype.
- IgnoreRules.Ignore.Live: takes the outer rule files as given, nearest first, with their prefixes; the search of a repository root in `Ignore::new` reads the disk.
- IgnoreRules.Ignore.Local: the disk does not change while rules are read, because only then can a cache be transparent.
- Glob.MatchTokens: cancellation in the middle of a match, and the words of every error, are left out; whether the volume folds case is a parameter.
- JsonParser.Parser.ParsedValue: positions count scalars, not bytes, which only error texts show.
- Secrets.RegisteredIsPattern: the registered secrets are one list; that they come from several shared stores, and which configuration values count as secrets, is not modelled.
- Http.Decoder.Feed: what is read from a complete header block is a parameter, because nothing in the chunking depends on it.
- Execution.Agent.Permit: what a call would touch, the level, the grants and the user's decision are arbitrary at every look, because other agents and the disk change them; the queue behind the decision is `Permissions`. That a tool checks its paths again while it runs is not modelled.
- Execution.Agent.ExecuteOne: of the events shown, only those for the start and the end of a call are told apart.
- Execution.Agent.RunSteps: which results stop the steps after them (src/agent/steps.rs:166-200) is arbitrary, and what the arguments of a call expand to comes with the call.
- Execution.Agent.Settle: the tools, the user's answers and all provider traffic are arbitrary outcomes. Collaborator receipts that join the transcript in the middle of a turn are not modelled.
- Turn.NextCompletion: takes the model's answers as a finite script; a turn that outlives it ends like one whose request failed. What else the request says about the environment is arbitrary.
- Projection.Project: the archived user requests at the head of a request (src/context/view.rs) are an arbitrary function of the messages before the boundary; previews and portable forms are named, not computed.
- Compaction.RecentBoundary: takes the weight of each message and the calibration as given. Learning the calibration, the threshold and the percentage of the window are arithmetic on single values; what the validation says of the calibration, the ceiling and the measured size is left out with them.
- Turn.CompactIfNeeded: whether the request is over budget, the text of a summary and whether that summary is small enough are arbitrary outcomes.
- SharedPermissions.Shared.Begin: a collaborator's own session, where its request is saved, and `record_agent_decision` are not part of the shared state; that save is an arbitrary outcome.
- SharedPermissions.Shared.WaitOnce: is one look under the lock; a wait is any number of them between other steps, without its time limit.
- Todo.SetIsLatest: speaks of the transcript of a running session; a session that is opened again masks every saved message once more.
- Todo.Latest: the plan of a `steps` call still running is not read. Phases, owners and labels of tasks are presentation.
- Processes, terminals, sandboxes, storage, network clients, the interface and the command line are not part of this model.
