/**
  Which runtime state the next request still has to send: what differs from the
  state already visible, and reports and finished processes once each.
 */
module PendingState {
  import Plans
  import opened Projection
  import opened Strings
  import opened Transcript
  import opened Wrappers

  // In parts, because proofs about characters need short texts.
  const REPORTS: string := "Collaborator " + "reports, each " + "shown once " + "when it arrives:"
  const PROCESSES: string := "Processes " + "that finished, " + "each shown once:"

  /** A collaborator's report; the marker names its author and version. */
  datatype Report = Report(marker: string, text: string) {
    function Entry(): string { marker + " " + text }
  }

  /** What the request would say now: lasting instructions, reports, and the
      processes that finished and were not delivered yet. */
  datatype Environment = Environment(base: string, reports: seq<Report>, completions: seq<string>)

  function Joined(lines: seq<string>): string {
    if lines == [] then []
    else if |lines| == 1 then lines[0]
    else lines[0] + "\n" + Joined(lines[1..])
  }

  function SectionEnd(text: string, section: string): nat {
    match Find(text, section, 0) case Some(at) => at case None => |text|
  }

  /** Where the sections shown only once begin. */
  function HeaderAt(text: string): (at: nat)
    ensures at <= |text|
    ensures forall k | 0 <= k < at :: !OccursAt(text, REPORTS, k) && !OccursAt(text, PROCESSES, k)
    ensures at < |text| ==> OccursAt(text, REPORTS, at) || OccursAt(text, PROCESSES, at)
  {
    var a, b := SectionEnd(text, REPORTS), SectionEnd(text, PROCESSES);
    if a <= b then a else b
  }

  predicate HasHeader(text: string) { HeaderAt(text) < |text| }

  /** A state update without the sections shown only once. */
  function LastingState(text: string): string { TrimEnd(text[..HeaderAt(text)]) }

  predicate Seen(states: seq<RequestState>, marker: string) {
    exists k | 0 <= k < |states| :: Contains(states[k].text, marker)
  }

  /** The reports whose marker no visible state contains. */
  function Unseen(states: seq<RequestState>, reports: seq<Report>): seq<string> {
    if reports == [] then []
    else (if Seen(states, reports[0].marker) then [] else [reports[0].Entry()]) + Unseen(states, reports[1..])
  }

  function Sections(reports: seq<string>, completions: seq<string>): string {
    (if reports != [] then "\n\n" + REPORTS + "\n" + Joined(reports) else "")
    + (if completions != [] then "\n\n" + PROCESSES + "\n" + Joined(completions) else "")
  }

  /** The state the next request sends; nothing when the model already has it. */
  function Pending(c: Context, e: Environment): Option<string> {
    var reports := Unseen(VisibleStates(c), e.reports);
    if reports == [] && e.completions == [] then
      match LatestText(c)
      case Some(text) => if LastingState(text) == TrimEnd(e.base) then None else Some(e.base)
      case None => Some(e.base)
    else
      Some(e.base + Sections(reports, e.completions))
  }

  // ----- The plan among the instructions

  /** The rows of the tasks, until they would be too long together. */
  function Rows(text: string, tasks: seq<Plans.Task>): (rows: string)
    ensures text <= rows
    decreases |tasks|
  {
    if tasks == [] then text
    else
      var owner := if tasks[0].agent.Some? then " (" + tasks[0].agent.value + ")" else "";
      var row := tasks[0].id + " [" + tasks[0].status + "] " + tasks[0].title + owner + "\n";
      if ByteLength(text) + ByteLength(row) > 4000 then
        text + "Further tasks omitted here; call todo_list action=get for the full plan.\n"
      else
        Rows(text + row, tasks[1..])
  }

  function PlanText(p: Plans.Plan): string {
    var heading := "Current conversation plan, revision " + Plans.Digits(p.revision) + ": " + p.title;
    var rule := ". The model owns updates through todo_list action=set; action=get retrieves the full plan.\n";
    Rows(heading + rule, p.tasks)
  }

  /** The lasting instructions: those about permissions and collaborators,
      which are never empty, then the plan. */
  function Instructions(first: string, plan: Option<Plans.Plan>): string {
    if plan.Some? then first + "\n\n" + PlanText(plan.value) else first
  }

  // ----- Where the lasting part of a state ends

  /** Printable ASCII. */
  predicate Plain(text: string) { forall k | 0 <= k < |text| :: ' ' <= text[k] <= '~' }

  lemma HeadersArePlain()
    ensures Plain(REPORTS) && Plain(PROCESSES) && |REPORTS| <= 200 && REPORTS[0] == 'C'
  {
    ReportsArePlain();
    ProcessesArePlain();
    hide REPORTS, PROCESSES;
  }

  lemma ReportsArePlain()
    ensures Plain(REPORTS) && |REPORTS| <= 200 && REPORTS[0] == 'C'
  {
    assert Plain("Collaborator ") && Plain("reports, each ") && Plain("shown once ") && Plain("when it arrives:");
  }

  lemma ProcessesArePlain()
    ensures Plain(PROCESSES)
  {
    assert Plain("Processes ") && Plain("that finished, ") && Plain("each shown once:");
  }

  lemma OneLine(header: string, k: nat)
    requires header in {REPORTS, PROCESSES} && k < |header|
    ensures header[k] != '\n'
  {
    HeadersArePlain();
  }

  lemma EndsInColon(header: string)
    requires header in {REPORTS, PROCESSES}
    ensures |header| > 0 && !IsWhitespace(header[|header| - 1])
  {
  }

  /** No header occurs across the end of a text that has none of its own. */
  lemma NoHeaderAcross(base: string, rest: string, header: string, k: nat)
    requires header in {REPORTS, PROCESSES} && !HasHeader(base) && k < |base| + 2
    ensures !OccursAt(base + "\n\n" + rest, header, k)
  {
    hide REPORTS, PROCESSES;
    var text := base + "\n\n" + rest;
    EndsInColon(header);
    if k + |header| <= |base| {
      assert text[k..k + |header|] == base[k..k + |header|];
      assert !OccursAt(base, header, k);
    } else if k + |header| <= |text| {
      var at := if k <= |base| then |base| else |base| + 1;
      OneLine(header, at - k);
      assert text[at] == '\n' && text[k..k + |header|][at - k] == text[at];
    }
  }

  /** What follows the first section of a state does not last. */
  lemma SectionCutsOff(base: string, section: string, rest: string)
    requires !HasHeader(base) && section in {REPORTS, PROCESSES}
    ensures LastingState(base + "\n\n" + section + rest) == TrimEnd(base)
  {
    hide REPORTS, PROCESSES, SectionEnd;
    var text := base + "\n\n" + section + rest;
    assert text == base + "\n\n" + (section + rest);
    forall k: nat | k < |base| + 2
      ensures !OccursAt(text, REPORTS, k) && !OccursAt(text, PROCESSES, k)
    {
      NoHeaderAcross(base, section + rest, REPORTS, k);
      NoHeaderAcross(base, section + rest, PROCESSES, k);
    }
    assert OccursAt(text, section, |base| + 2);
    EndsInColon(section);
    assert HeaderAt(text) == |base| + 2;
    assert text[..|base| + 2] == base + "\n\n";
    TrimsAlike(base, "\n\n");
  }

  lemma SectionsCutOff(base: string, reports: seq<string>, completions: seq<string>)
    requires !HasHeader(base)
    ensures LastingState(base + Sections(reports, completions)) == TrimEnd(base)
  {
    hide REPORTS, PROCESSES, LastingState, HasHeader, Joined;
    if reports != [] {
      var rest := "\n" + Joined(reports)
        + if completions != [] then "\n\n" + PROCESSES + "\n" + Joined(completions) else "";
      SectionCutsOff(base, REPORTS, rest);
      assert base + Sections(reports, completions) == base + "\n\n" + REPORTS + rest;
    } else if completions != [] {
      SectionCutsOff(base, PROCESSES, "\n" + Joined(completions));
      assert base + Sections(reports, completions) == base + "\n\n" + PROCESSES + ("\n" + Joined(completions));
    } else {
      assert base + Sections(reports, completions) == base;
      NoHeaderLasts(base);
    }
  }

  lemma NoHeaderLasts(base: string)
    requires !HasHeader(base)
    ensures LastingState(base) == TrimEnd(base)
  {
    assert base[..HeaderAt(base)] == base;
  }

  lemma TrimmedHeaderStays(base: string)
    requires HasHeader(base)
    ensures HasHeader(TrimEnd(base))
  {
    hide REPORTS, PROCESSES, SectionEnd;
    var p := HeaderAt(base);
    var header := if OccursAt(base, REPORTS, p) then REPORTS else PROCESSES;
    EndsInColon(header);
    assert base[p + |header| - 1] == header[|header| - 1];
    assert TrimEnd(base)[p..p + |header|] == base[p..p + |header|];
    assert OccursAt(TrimEnd(base), header, p);
  }

  lemma HeaderOfBeginning(text: string, n: nat)
    requires n <= |text| && HasHeader(text[..n])
    ensures HeaderAt(text) < n
  {
    hide REPORTS, PROCESSES, SectionEnd;
    var p := HeaderAt(text[..n]);
    var header := if OccursAt(text[..n], REPORTS, p) then REPORTS else PROCESSES;
    EndsInColon(header);
    assert text[p..p + |header|] == text[..n][p..p + |header|];
    assert OccursAt(text, header, p);
  }

  lemma LastingHasNoHeader(text: string)
    ensures !HasHeader(LastingState(text))
  {
    hide HeaderAt;
    var lasting := LastingState(text);
    if HasHeader(lasting) {
      assert lasting == text[..|lasting|];
      HeaderOfBeginning(text, |lasting|);
    }
  }

  /** A header among the instructions cuts them off. */
  lemma HeaderCutsBase(base: string, rest: string)
    requires HasHeader(base)
    ensures LastingState(base + rest) != TrimEnd(base)
  {
    hide HeaderAt;
    LastingHasNoHeader(base + rest);
    TrimmedHeaderStays(base);
  }

  // ----- What is still pending once a request was accepted

  lemma ContainsPart(before: string, part: string, rest: string)
    ensures Contains(before + part + rest, part)
  {
    assert OccursAt(before + part + rest, part, |before|);
  }

  lemma {:induction false} JoinedContains(lines: seq<string>, k: nat) returns (before: string, rest: string)
    requires k < |lines|
    ensures Joined(lines) == before + lines[k] + rest
    decreases |lines|
  {
    if |lines| == 1 {
      before, rest := "", "";
    } else if k == 0 {
      before, rest := "", "\n" + Joined(lines[1..]);
      assert Joined(lines) == before + lines[k] + rest;
    } else {
      var b, r := JoinedContains(lines[1..], k - 1);
      before, rest := lines[0] + "\n" + b, r;
      assert Joined(lines) == before + lines[k] + rest;
    }
  }

  lemma {:induction false} UnseenEntry(states: seq<RequestState>, reports: seq<Report>, k: nat) returns (at: nat)
    requires k < |reports| && !Seen(states, reports[k].marker)
    ensures at < |Unseen(states, reports)| && Unseen(states, reports)[at] == reports[k].Entry()
    decreases |reports|
  {
    hide Seen;
    if k == 0 {
      at := 0;
    } else {
      var rest := UnseenEntry(states, reports[1..], k - 1);
      at := if Seen(states, reports[0].marker) then rest else rest + 1;
    }
  }

  /** A state that sends a report carries its marker. */
  lemma SentReportIsMarked(
    base: string, states: seq<RequestState>, reports: seq<Report>, completions: seq<string>, k: nat
  )
    requires k < |reports| && !Seen(states, reports[k].marker)
    ensures Contains(base + Sections(Unseen(states, reports), completions), reports[k].marker)
  {
    hide REPORTS, PROCESSES, Seen, Unseen, Joined, Contains;
    var at := UnseenEntry(states, reports, k);
    var unseen := Unseen(states, reports);
    var before, rest := JoinedContains(unseen, at);
    var marker := reports[k].marker;
    var tail := if completions != [] then "\n\n" + PROCESSES + "\n" + Joined(completions) else "";
    var after := " " + reports[k].text + rest + tail;
    var all := base + Sections(unseen, completions);
    var start := base + "\n\n" + REPORTS + "\n" + before;
    assert all == start + marker + after by {
      assert unseen[at] == marker + " " + reports[k].text;
      assert Sections(unseen, completions) == "\n\n" + REPORTS + "\n" + Joined(unseen) + tail;
    }
    ContainsPart(start, marker, after);
  }

  lemma {:induction false} UnseenComesFrom(states: seq<RequestState>, reports: seq<Report>)
    requires Unseen(states, reports) != []
    ensures exists k | 0 <= k < |reports| :: !Seen(states, reports[k].marker)
    decreases |reports|
  {
    hide Seen;
    if Seen(states, reports[0].marker) {
      UnseenComesFrom(states, reports[1..]);
      var k :| 0 <= k < |reports[1..]| && !Seen(states, reports[1..][k].marker);
      assert !Seen(states, reports[k + 1].marker);
    }
  }

  lemma EntryIsSent(base: string, states: seq<RequestState>, reports: seq<Report>, completions: seq<string>, k: nat)
    requires k < |reports| && !Seen(states, reports[k].marker)
    ensures Contains(base + Sections(Unseen(states, reports), completions), reports[k].Entry())
  {
    hide REPORTS, PROCESSES, Seen, Unseen, Joined, Contains;
    var unseen := Unseen(states, reports);
    var at := UnseenEntry(states, reports, k);
    var before, rest := JoinedContains(unseen, at);
    var tail := if completions != [] then "\n\n" + PROCESSES + "\n" + Joined(completions) else "";
    var start := base + "\n\n" + REPORTS + "\n" + before;
    assert Sections(unseen, completions) == "\n\n" + REPORTS + "\n" + Joined(unseen) + tail;
    assert base + Sections(unseen, completions) == start + unseen[at] + (rest + tail);
    ContainsPart(start, unseen[at], rest + tail);
  }

  lemma CompletionIsSent(base: string, reports: seq<string>, completions: seq<string>, k: nat)
    requires k < |completions|
    ensures Contains(base + Sections(reports, completions), completions[k])
  {
    hide REPORTS, PROCESSES, Joined, Contains;
    var before, rest := JoinedContains(completions, k);
    var start := base + (if reports != [] then "\n\n" + REPORTS + "\n" + Joined(reports) else "")
      + "\n\n" + PROCESSES + "\n" + before;
    assert base + Sections(reports, completions) == start + completions[k] + rest;
    ContainsPart(start, completions[k], rest);
  }

  /** Everything that is due is sent: behind the instructions every report whose
      marker no visible state has and every finished process. Without any, the
      instructions alone are sent, and only when the last state lacks them. */
  lemma PendingMeans(c: Context, e: Environment)
    ensures var state, visible := Pending(c, e), VisibleStates(c);
            && (state.Some? ==> e.base <= state.value)
            && (forall k | 0 <= k < |e.completions| :: state.Some? && Contains(state.value, e.completions[k]))
            && (forall k | 0 <= k < |e.reports| && !Seen(visible, e.reports[k].marker) ::
                  state.Some? && Contains(state.value, e.reports[k].Entry()))
    ensures var visible := VisibleStates(c);
            e.completions == [] && (forall k | 0 <= k < |e.reports| :: Seen(visible, e.reports[k].marker)) ==>
              Pending(c, e) ==
              if visible != [] && LastingState(visible[|visible| - 1].text) == TrimEnd(e.base) then None
              else Some(e.base)
  {
    hide Seen, Unseen, Sections, Contains, LastingState, VisibleStates;
    var visible := VisibleStates(c);
    var unseen := Unseen(visible, e.reports);
    forall k | 0 <= k < |e.completions|
      ensures Contains(e.base + Sections(unseen, e.completions), e.completions[k])
    {
      CompletionIsSent(e.base, unseen, e.completions, k);
    }
    forall k | 0 <= k < |e.reports| && !Seen(visible, e.reports[k].marker)
      ensures unseen != [] && Contains(e.base + Sections(unseen, e.completions), e.reports[k].Entry())
    {
      var at := UnseenEntry(visible, e.reports, k);
      EntryIsSent(e.base, visible, e.reports, e.completions, k);
    }
    if unseen != [] {
      UnseenComesFrom(visible, e.reports);
    }
  }

  lemma {:induction false} NothingUnseen(states: seq<RequestState>, reports: seq<Report>)
    requires forall k | 0 <= k < |reports| :: Seen(states, reports[k].marker)
    ensures Unseen(states, reports) == []
    decreases |reports|
  {
    hide Seen;
    if reports != [] {
      NothingUnseen(states, reports[1..]);
    }
  }

  lemma VisibleAfter(c: Context, n: nat, text: string)
    requires c.from <= n && forall k | 0 <= k < |c.states| :: c.states[k].before <= n
    ensures LatestText(Anchored(c, n, text)) == Some(text)
    ensures VisibleStates(c) <= VisibleStates(Anchored(c, n, text))
    ensures var visible := VisibleStates(Anchored(c, n, text));
            exists k | 0 <= k < |visible| :: visible[k].text == text
  {
    var visible := VisibleStates(c);
    if LatestText(c) == Some(text) {
      assert visible[|visible| - 1].text == text;
    } else {
      var d := Anchored(c, n, text);
      assert d.states[..|d.states| - 1] == c.states;
      assert VisibleStates(d) == visible + [RequestState(n, text)];
      assert VisibleStates(d)[|visible|].text == text;
    }
  }

  function Delivered(e: Environment): Environment { e.(completions := []) }

  /** After a request was accepted, every report has been seen. */
  lemma NoReportLeft(c: Context, messages: seq<Message>, e: Environment)
    requires Valid(c, messages)
    ensures Unseen(VisibleStates(Accepted(c, messages, Pending(c, e))), e.reports) == []
  {
    hide Sections, Contains, LastingState;
    var state, visible := Pending(c, e), VisibleStates(c);
    if state.Some? {
      var d := VisibleStates(Accepted(c, messages, state));
      VisibleAfter(c, |messages|, state.value);
      forall k | 0 <= k < |e.reports|
        ensures Seen(d, e.reports[k].marker)
      {
        if Seen(visible, e.reports[k].marker) {
          var i :| 0 <= i < |visible| && Contains(visible[i].text, e.reports[k].marker);
          assert d[i] == visible[i];
        } else {
          SentReportIsMarked(e.base, visible, e.reports, e.completions, k);
          var at := UnseenEntry(visible, e.reports, k);
        }
      }
      NothingUnseen(d, e.reports);
    }
  }

  /** In an unchanged environment nothing is sent twice, exactly when the
      instructions do not contain a section header themselves. */
  lemma NothingPendingTwice(c: Context, messages: seq<Message>, e: Environment)
    requires Valid(c, messages)
    ensures var state := Pending(c, e);
            Pending(Accepted(c, messages, state), Delivered(e)) == None <==> state == None || !HasHeader(e.base)
  {
    hide LastingState, HasHeader, Sections, Unseen, LatestText, Accepted, VisibleStates;
    var state := Pending(c, e);
    NoReportLeft(c, messages, e);
    if state == None {
      NothingAccepted(c, messages);
    } else {
      LatestIsSent(c, messages, state.value);
      var sections := Sections(Unseen(VisibleStates(c), e.reports), e.completions);
      assert state.value == e.base + sections by {
        NoSections(e.base);
      }
      if HasHeader(e.base) {
        HeaderCutsBase(e.base, sections);
      } else {
        SectionsCutOff(e.base, Unseen(VisibleStates(c), e.reports), e.completions);
      }
    }
  }

  lemma NoSections(base: string)
    ensures base + Sections([], []) == base
  {
  }

  lemma LatestIsSent(c: Context, messages: seq<Message>, text: string)
    requires Valid(c, messages)
    ensures LatestText(Accepted(c, messages, Some(text))) == Some(text)
  {
    VisibleAfter(c, |messages|, text);
  }

  // ----- A tool loop in an unchanged environment

  /** Messages that end in a result or a user's message. */
  predicate Waits(more: seq<Message>) {
    more != [] && (more[|more| - 1].Tool? || more[|more| - 1].User?)
  }

  ghost function LoopRounds(
    c: Context, messages: seq<Message>, e: Environment, mores: seq<seq<Message>>
  ): (rounds: seq<Round>)
    requires Valid(c, messages)
    ensures |rounds| == |mores|
    decreases |mores|
  {
    if mores == [] then []
    else
      var round := Round(mores[0], Pending(c, e));
      [round] + LoopRounds(AfterRound(c, messages, round), messages + mores[0], Delivered(e), mores[1..])
  }

  lemma WaitingNeedsNoNote(c: Context, g: Given, messages: seq<Message>, more: seq<Message>)
    requires Valid(c, messages) && Waits(more)
    ensures !NeedsNote(Projected(c, g, messages + more))
  {
    hide Head, FormOf;
    var all := messages + more;
    var n := |all|;
    assert all[n - 1] == more[|more| - 1];
    assert Body(c, g, all, n) == Body(c, g, all, n - 1) + Place(c, g, all, n - 1);
    var trailing := StatesIn(c.states, n, n + 1);
    if trailing != [] {
      assert Projected(c, g, all)[|Projected(c, g, all)| - 1] == trailing[|trailing| - 1];
    }
  }

  lemma {:induction false} NothingMoreToSend(
    c: Context, g: Given, messages: seq<Message>, e: Environment, mores: seq<seq<Message>>
  )
    requires Valid(c, messages) && Pending(c, e) == None && forall k | 0 <= k < |mores| :: Waits(mores[k])
    ensures var rounds := LoopRounds(c, messages, e, mores);
            && AllFixed(c, g, messages, rounds)
            && forall k | 0 <= k < |rounds| :: rounds[k].state == None
    decreases |mores|
  {
    hide Pending, Projected, NeedsNote, Waits;
    if mores != [] {
      var round := Round(mores[0], None);
      NothingAccepted(c, messages + mores[0]);
      StillNothing(c, e);
      WaitingNeedsNoNote(c, g, messages, mores[0]);
      NothingMoreToSend(AfterRound(c, messages, round), g, messages + mores[0], Delivered(e), mores[1..]);
    }
  }

  lemma StillNothing(c: Context, e: Environment)
    requires Pending(c, e) == None
    ensures Pending(c, Delivered(e)) == None
  {
  }

  /** Once the first request of a tool loop is accepted, the others send no
      state, and each begins with all the earlier ones. */
  lemma ToolLoopExtends(c: Context, g: Given, messages: seq<Message>, e: Environment, mores: seq<seq<Message>>)
    requires Valid(c, messages) && mores != [] && forall k | 0 <= k < |mores| :: Waits(mores[k])
    requires !HasHeader(e.base) && Fixed(c, g, messages + mores[0], Pending(c, e))
    ensures var rounds := LoopRounds(c, messages, e, mores);
            && Growing(RequestsOf(c, g, messages, rounds))
            && forall k | 1 <= k < |rounds| :: rounds[k].state == None
  {
    hide Pending, Projected, NeedsNote, Waits, HasHeader, Fixed, Accepted, Growing;
    var now := messages + mores[0];
    var round := Round(mores[0], Pending(c, e));
    AcceptedIsValid(c, messages, None, mores[0]);
    NothingAccepted(c, messages);
    NothingPendingTwice(c, now, e);
    NothingMoreToSend(AfterRound(c, messages, round), g, now, Delivered(e), mores[1..]);
    RequestsGrow(c, g, messages, LoopRounds(c, messages, e, mores));
  }

  // ----- Instructions that contain a header

  /** A header inside a text is one of the whole text. */
  lemma HeaderInside(before: string, part: string, after: string)
    requires HasHeader(part)
    ensures HasHeader(before + part + after)
  {
    hide REPORTS, PROCESSES, SectionEnd;
    var text, p := before + part + after, HeaderAt(part);
    var header := if OccursAt(part, REPORTS, p) then REPORTS else PROCESSES;
    EndsInColon(header);
    OccursInside(before, part, after, header, p);
  }

  lemma OccursInside(before: string, part: string, after: string, pattern: string, p: nat)
    requires OccursAt(part, pattern, p)
    ensures OccursAt(before + part + after, pattern, |before| + p)
  {
    var text, at := before + part + after, |before| + p;
    forall k | 0 <= k < |pattern|
      ensures text[at + k] == pattern[k]
    {
      assert text[at + k] == part[p + k] == part[p..p + |pattern|][k];
    }
    assert text[at..at + |pattern|] == pattern;
  }

  /** With a header among the instructions there is always something to send,
      whatever was sent before. */
  lemma HeaderIsAlwaysPending(c: Context, e: Environment)
    requires HasHeader(e.base)
    ensures Pending(c, e).Some?
  {
    hide HasHeader, LastingState, Sections;
    TrimmedHeaderStays(e.base);
    if LatestText(c).Some? {
      LastingHasNoHeader(LatestText(c).value);
    }
  }

  /** Then every request of every run in this environment sends its state. */
  lemma {:induction false} HeaderIsSentForever(
    c: Context, messages: seq<Message>, e: Environment, mores: seq<seq<Message>>
  )
    requires Valid(c, messages) && HasHeader(e.base)
    ensures forall k | 0 <= k < |mores| :: LoopRounds(c, messages, e, mores)[k].state.Some?
    decreases |mores|
  {
    hide Pending, HasHeader;
    if mores != [] {
      var round := Round(mores[0], Pending(c, e));
      HeaderIsAlwaysPending(c, e);
      HeaderIsSentForever(AfterRound(c, messages, round), messages + mores[0], Delivered(e), mores[1..]);
    }
  }

  /** A plan whose title contains a header brings it into the instructions. */
  lemma TitleBringsHeader(first: string, plan: Plans.Plan)
    requires HasHeader(plan.title)
    ensures HasHeader(Instructions(first, Some(plan)))
  {
    hide HasHeader, Rows, Plans.Digits;
    var heading := "Current conversation plan, revision " + Plans.Digits(plan.revision) + ": ";
    var before, text := first + "\n\n" + heading, Instructions(first, Some(plan));
    assert before + plan.title <= text;
    assert text == before + plan.title + text[|before + plan.title|..];
    HeaderInside(before, plan.title, text[|before + plan.title|..]);
  }

  /** Such a title is valid, so the plan is one that a call can set. */
  lemma HeaderIsATitle()
    ensures var plan := Plans.Plan(REPORTS, 1, []);
            Plans.ValidPlan(plan) && HasHeader(plan.title)
  {
    HeaderIsOneLine();
    hide REPORTS, PROCESSES;
    EndsInColon(REPORTS);
    assert OccursAt(REPORTS, REPORTS, 0);
  }

  lemma PlainIsOneLine(text: string)
    requires Plain(text) && |text| <= 200 && text != [] && text[0] != ' '
    ensures Plans.Required(text, 200)
  {
    AsciiLength(text);
  }

  lemma HeaderIsOneLine()
    ensures Plans.Required(REPORTS, 200)
  {
    HeadersArePlain();
    EndsInColon(REPORTS);
    PlainIsOneLine(REPORTS);
  }

  lemma {:induction false} AsciiLength(text: string)
    requires forall k | 0 <= k < |text| :: text[k] < '\U{80}'
    ensures ByteLength(text) == |text|
  {
    if text != [] {
      AsciiLength(text[1..]);
    }
  }
}
