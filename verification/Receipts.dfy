/**
  Why a call has the result it has: what went wrong while the calls of an answer
  ran, and which results only that explains.
 */
module Receipts {
  import opened Gate
  import opened Transcript
  import opened Wrappers

  /** What a turn shows of a call: that it starts, and what became of it. */
  datatype Shown = Started(id: string) | Finished(id: string) | Other

  /** How things went so far: what failed and so stopped the turn, saves, events
      and cancellations among it; tools whose end nobody learned; step results
      that stopped the steps after them; and the events shown. */
  datatype Course = Course(failures: nat, lost: nat, stops: nat, shown: seq<Shown>)

  function Counted(m: Course, ok: bool): Course { if ok then m else m.(failures := m.failures + 1) }

  function Emitted(m: Course, event: Shown, ok: bool): Course {
    if ok then m.(shown := m.shown + [event]) else Counted(m, false)
  }

  /** How things went and which calls were looked at, up to a moment. */
  datatype Point = Point(course: Course, checks: seq<Check>)

  ghost predicate Passed(a: Point, b: Point) {
    && a.course.failures <= b.course.failures && a.course.lost <= b.course.lost
    && a.course.stops <= b.course.stops && a.course.shown <= b.course.shown && a.checks <= b.checks
  }

  /** The event was shown meanwhile. */
  ghost predicate Showed(a: Point, b: Point, event: Shown) {
    exists k | |a.course.shown| <= k < |b.course.shown| :: b.course.shown[k] == event
  }

  /** It was shown what became of each call, as far as anyone learned it; the
      steps of a call that has any are shown one by one instead. */
  ghost predicate Ended(a: Point, b: Point, calls: seq<ToolCall>, outcomes: seq<Outcome>) {
    && |calls| == |outcomes|
    && forall k | 0 <= k < |calls| && (calls[k].name != "steps" || outcomes[k] == Refused) && outcomes[k] != Unknown ::
         Showed(a, b, Finished(calls[k].id))
  }

  ghost predicate Failed(a: Point, b: Point) { a.course.failures < b.course.failures }

  /** The call was looked at meanwhile and not let run. */
  ghost predicate Doubted(a: Point, b: Point, call: ToolCall) {
    exists k | |a.checks| <= k < |b.checks| :: b.checks[k].call == call && !Passes(b.checks[k])
  }

  predicate OnlyAlone(call: ToolCall) { call.name in {"steps", "ask_user"} }

  /** A call is skipped only behind a failure, refused only when a check did not
      let it run, and its end is unknown only when nobody learned of it; a tool
      that ran was shown to start. */
  ghost predicate ToldAlone(a: Point, b: Point, call: ToolCall, outcome: Outcome) {
    match outcome
    case NotExecuted => Failed(a, b)
    case Refused => Doubted(a, b, call)
    case Answered => call.name == "ask_user"
    case Ran => !OnlyAlone(call) && Showed(a, b, Started(call.id))
    case Unknown => !OnlyAlone(call) && Showed(a, b, Started(call.id)) && a.course.lost < b.course.lost
    case Combined(_) => false
  }

  /** The steps of a call can be run: there are some, and none of them is itself
      `steps` or a question. */
  predicate Runnable(call: ToolCall) {
    && call.steps.Some? && call.steps.value != []
    && forall k | 0 <= k < |call.steps.value| :: !OnlyAlone(call.steps.value[k])
  }

  /** The steps ran in order, up to the end unless something stopped them. */
  ghost predicate ToldSteps(a: Point, b: Point, steps: seq<ToolCall>, results: seq<StepResult>) {
    && |results| <= |steps|
    && (|results| < |steps| ==> Failed(a, b) || a.course.stops < b.course.stops)
    && forall k | 0 <= k < |results| ::
         results[k].id == steps[k].id && ToldAlone(a, b, steps[k], results[k].outcome)
  }

  ghost predicate Told(a: Point, b: Point, call: ToolCall, outcome: Outcome) {
    if call.name == "steps" then
      match outcome
      case NotExecuted => Failed(a, b)
      case Refused => !Runnable(call)
      case Combined(results) => Runnable(call) && ToldSteps(a, b, call.steps.value, results)
      case _ => false
    else ToldAlone(a, b, call, outcome)
  }

  ghost predicate ToldAll(a: Point, b: Point, calls: seq<ToolCall>, outcomes: seq<Outcome>) {
    |calls| == |outcomes| && forall k | 0 <= k < |calls| :: Told(a, b, calls[k], outcomes[k])
  }

  predicate Executed(outcomes: seq<Outcome>) { forall k | 0 <= k < |outcomes| :: outcomes[k] != NotExecuted }

  // ----- As more happens

  lemma PassedOn(a: Point, b: Point, c: Point)
    requires Passed(a, b) && Passed(b, c)
    ensures Passed(a, c)
    ensures Failed(a, b) || Failed(b, c) ==> Failed(a, c)
  {
  }

  lemma ShowedWider(a: Point, b: Point, c: Point, d: Point, event: Shown)
    requires Passed(a, b) && Passed(b, c) && Passed(c, d) && Showed(b, c, event)
    ensures Showed(a, d, event)
  {
    var k :| |b.course.shown| <= k < |c.course.shown| && c.course.shown[k] == event;
    assert d.course.shown[k] == event;
  }

  lemma StillShowed(a: Point, b: Point, c: Point, batch: seq<ToolCall>)
    requires Passed(a, b) && Passed(b, c)
    ensures forall k | 0 <= k < |batch| && Showed(a, b, Finished(batch[k].id)) ::
              Showed(a, c, Finished(batch[k].id))
  {
    hide Showed;
    Same(a);
    forall k | 0 <= k < |batch| && Showed(a, b, Finished(batch[k].id))
      ensures Showed(a, c, Finished(batch[k].id))
    {
      ShowedWider(a, a, b, c, Finished(batch[k].id));
    }
  }

  lemma EndedWider(a: Point, b: Point, c: Point, d: Point, calls: seq<ToolCall>, outcomes: seq<Outcome>)
    requires Passed(a, b) && Passed(b, c) && Passed(c, d) && Ended(b, c, calls, outcomes)
    ensures Ended(a, d, calls, outcomes)
  {
    hide Passed, Showed;
    forall k | 0 <= k < |calls| && (calls[k].name != "steps" || outcomes[k] == Refused) && outcomes[k] != Unknown
      ensures Showed(a, d, Finished(calls[k].id))
    {
      ShowedWider(a, b, c, d, Finished(calls[k].id));
    }
  }

  lemma EndedBoth(
    a: Point, b: Point, c: Point, calls: seq<ToolCall>, x: seq<Outcome>, more: seq<ToolCall>, y: seq<Outcome>
  )
    requires Passed(a, b) && Passed(b, c) && Ended(a, b, calls, x) && Ended(b, c, more, y)
    ensures Ended(a, c, calls + more, x + y)
  {
    Same(a);
    Same(c);
    EndedWider(a, a, b, c, calls, x);
    EndedWider(a, b, c, c, more, y);
    hide Passed, Showed;
  }

  lemma ToldAloneWider(a: Point, b: Point, c: Point, d: Point, call: ToolCall, outcome: Outcome)
    requires Passed(a, b) && Passed(b, c) && Passed(c, d) && ToldAlone(b, c, call, outcome)
    ensures ToldAlone(a, d, call, outcome)
  {
    hide Passes;
    if outcome == Refused {
      var k :| |b.checks| <= k < |c.checks| && c.checks[k].call == call && !Passes(c.checks[k]);
      assert d.checks[k] == c.checks[k];
    } else if outcome in {Ran, Unknown} {
      ShowedWider(a, b, c, d, Started(call.id));
    }
  }

  lemma ToldWider(a: Point, b: Point, c: Point, d: Point, call: ToolCall, outcome: Outcome)
    requires Passed(a, b) && Passed(b, c) && Passed(c, d) && Told(b, c, call, outcome)
    ensures Told(a, d, call, outcome)
  {
    hide ToldAlone;
    if call.name != "steps" {
      ToldAloneWider(a, b, c, d, call, outcome);
    } else if outcome.Combined? {
      var steps, results := call.steps.value, outcome.steps;
      forall k | 0 <= k < |results|
        ensures ToldAlone(a, d, steps[k], results[k].outcome)
      {
        ToldAloneWider(a, b, c, d, steps[k], results[k].outcome);
      }
    }
  }

  lemma ToldAllWider(a: Point, b: Point, c: Point, d: Point, calls: seq<ToolCall>, outcomes: seq<Outcome>)
    requires Passed(a, b) && Passed(b, c) && Passed(c, d) && ToldAll(b, c, calls, outcomes)
    ensures ToldAll(a, d, calls, outcomes)
  {
    hide Told, Passed;
    forall k | 0 <= k < |calls|
      ensures Told(a, d, calls[k], outcomes[k])
    {
      ToldWider(a, b, c, d, calls[k], outcomes[k]);
    }
  }

  lemma Same(a: Point)
    ensures Passed(a, a)
  {
  }

  lemma ToldBoth(
    a: Point, b: Point, c: Point, calls: seq<ToolCall>, x: seq<Outcome>, more: seq<ToolCall>, y: seq<Outcome>
  )
    requires Passed(a, b) && Passed(b, c) && ToldAll(a, b, calls, x) && ToldAll(b, c, more, y)
    ensures Passed(a, c) && ToldAll(a, c, calls + more, x + y)
  {
    hide Told;
    Same(a);
    Same(c);
    PassedOn(a, b, c);
    ToldAllWider(a, a, b, c, calls, x);
    ToldAllWider(a, b, c, c, more, y);
  }

  lemma ToldAllLater(a: Point, b: Point, c: Point, calls: seq<ToolCall>, outcomes: seq<Outcome>)
    requires Passed(a, b) && Passed(b, c) && ToldAll(a, b, calls, outcomes)
    ensures Passed(a, c) && ToldAll(a, c, calls, outcomes)
  {
    Same(a);
    PassedOn(a, b, c);
    hide ToldAll, Passed;
    ToldAllWider(a, a, b, c, calls, outcomes);
  }

  lemma ToldLater(a: Point, b: Point, c: Point, call: ToolCall, outcome: Outcome)
    requires Passed(a, b) && Passed(b, c) && Told(a, b, call, outcome)
    ensures Passed(a, c) && Told(a, c, call, outcome)
  {
    ToldOne(a, b, call, outcome);
    ToldOne(a, c, call, outcome);
    hide ToldAll, Told;
    ToldAllLater(a, b, c, [call], [outcome]);
  }

  lemma ToldStepsLater(a: Point, b: Point, c: Point, steps: seq<ToolCall>, results: seq<StepResult>)
    requires Passed(a, b) && Passed(b, c) && ToldSteps(a, b, steps, results)
    ensures Passed(a, c) && ToldSteps(a, c, steps, results)
  {
    hide ToldAlone;
    PassedOn(a, b, c);
    forall k | 0 <= k < |results|
      ensures ToldAlone(a, c, steps[k], results[k].outcome)
    {
      ToldAloneWider(a, a, b, c, steps[k], results[k].outcome);
    }
  }

  /** Single steps told one by one are told together. */
  lemma ToldInOrder(a: Point, b: Point, steps: seq<ToolCall>, outcomes: seq<Outcome>)
    requires |outcomes| <= |steps| && ToldAll(a, b, steps[..|outcomes|], outcomes)
    requires forall k | 0 <= k < |steps| :: !OnlyAlone(steps[k])
    requires |outcomes| < |steps| ==> Failed(a, b) || a.course.stops < b.course.stops
    ensures ToldSteps(a, b, steps, StepResults(steps[..|outcomes|], outcomes))
  {
    hide ToldAlone;
    forall k | 0 <= k < |outcomes|
      ensures ToldAlone(a, b, steps[k], outcomes[k])
    {
      assert Told(a, b, steps[..|outcomes|][k], outcomes[k]);
    }
  }

  lemma SkippedTold(a: Point, b: Point, calls: seq<ToolCall>)
    requires Failed(a, b)
    ensures ToldAll(a, b, calls, AllNotExecuted(|calls|))
  {
  }

  lemma RefusedIsTold(a: Point, b: Point, call: ToolCall, check: Check)
    requires call.name != "steps" && b.checks == a.checks + [check] && check.call == call && !Passes(check)
    ensures Told(a, b, call, Refused)
  {
    hide Passes;
    assert b.checks[|a.checks|] == check;
  }

  lemma AnsweredIsTold(a: Point, b: Point, call: ToolCall)
    requires call.name == "ask_user"
    ensures Told(a, b, call, Answered)
  {
  }

  lemma WorkIsTold(a: Point, b: Point, call: ToolCall, outcome: Outcome)
    requires !OnlyAlone(call) && Showed(a, b, Started(call.id))
    requires (outcome == Ran || (outcome == Unknown && a.course.lost < b.course.lost))
    ensures Told(a, b, call, outcome)
  {
  }

  lemma SkippedIsTold(a: Point, b: Point, call: ToolCall)
    requires Failed(a, b)
    ensures Told(a, b, call, NotExecuted)
  {
  }

  lemma ToldOne(a: Point, b: Point, call: ToolCall, outcome: Outcome)
    ensures ToldAll(a, b, [call], [outcome]) <==> Told(a, b, call, outcome)
  {
    hide Told;
    assert [call][0] == call && [outcome][0] == outcome;
  }

  /** Tools on workers end in one of two ways. */
  ghost predicate Worked(a: Point, b: Point, outcomes: seq<Outcome>) {
    forall k | 0 <= k < |outcomes| ::
      outcomes[k] == Ran || (outcomes[k] == Unknown && a.course.lost < b.course.lost)
  }

  lemma NothingWorked(a: Point, b: Point)
    ensures Worked(a, b, [])
  {
  }

  lemma WorkersEnd(a: Point, b: Point, outcomes: seq<Outcome>)
    requires Worked(a, b, outcomes)
    ensures forall k | 0 <= k < |outcomes| :: outcomes[k] in {Ran, Unknown}
  {
  }

  lemma WorkedMore(a: Point, b: Point, c: Point, outcomes: seq<Outcome>, next: Outcome)
    requires Worked(a, b, outcomes) && Passed(a, b) && Passed(b, c)
    requires next == Ran || (next == Unknown && b.course.lost < c.course.lost)
    ensures Worked(a, c, outcomes + [next]) && Passed(a, c)
  {
  }

  lemma WorkedIsTold(a: Point, b: Point, c: Point, batch: seq<ToolCall>, outcomes: seq<Outcome>)
    requires Passed(a, b) && Passed(b, c) && |batch| == |outcomes| && Worked(b, c, outcomes)
    requires forall k | 0 <= k < |batch| :: Showed(a, b, Started(batch[k].id)) && !OnlyAlone(batch[k])
    ensures ToldAll(a, c, batch, outcomes) && Executed(outcomes)
  {
    Same(a);
    hide Showed;
    forall k | 0 <= k < |batch|
      ensures Told(a, c, batch[k], outcomes[k])
    {
      ShowedWider(a, a, b, c, Started(batch[k].id));
    }
  }

  /** One event for each call of a batch. */
  function Each(calls: seq<ToolCall>, finished: bool): (events: seq<Shown>)
    ensures |events| == |calls| && forall k | 0 <= k < |calls| ::
              events[k] == if finished then Finished(calls[k].id) else Started(calls[k].id)
  {
    seq(|calls|, k requires 0 <= k < |calls| =>
      if finished then Finished(calls[k].id) else Started(calls[k].id))
  }

  lemma EachMore(shown: seq<Shown>, calls: seq<ToolCall>, finished: bool, k: nat)
    requires k < |calls|
    ensures shown + Each(calls[..k], finished)
            + [if finished then Finished(calls[k].id) else Started(calls[k].id)] ==
            shown + Each(calls[..k + 1], finished)
    ensures shown + Each(calls[..0], finished) == shown
  {
  }

  lemma EachShowed(a: Point, b: Point, calls: seq<ToolCall>, finished: bool)
    requires b.course.shown == a.course.shown + Each(calls, finished)
    ensures finished ==> forall k | 0 <= k < |calls| :: Showed(a, b, Finished(calls[k].id))
    ensures !finished ==> forall k | 0 <= k < |calls| :: Showed(a, b, Started(calls[k].id))
  {
    forall k | 0 <= k < |calls|
      ensures Showed(a, b, if finished then Finished(calls[k].id) else Started(calls[k].id))
    {
      assert b.course.shown[|a.course.shown| + k] == Each(calls, finished)[k];
    }
  }

  lemma ToldNothing(a: Point, b: Point)
    ensures ToldAll(a, b, [], []) && Ended(a, b, [], [])
  {
  }

  /** What went wrong explains every result: without a failure, a lost end or a
      check that stops its call, all ordinary calls ran. */
  lemma AllRan(a: Point, b: Point, calls: seq<ToolCall>, outcomes: seq<Outcome>, k: nat)
    requires ToldAll(a, b, calls, outcomes) && k < |calls|
    requires a.course.failures == b.course.failures && a.course.lost == b.course.lost
    requires forall i | |a.checks| <= i < |b.checks| :: Passes(b.checks[i])
    ensures !OnlyAlone(calls[k]) ==> outcomes[k] == Ran
    ensures calls[k].name == "ask_user" ==> outcomes[k] == Answered
    ensures calls[k].name == "steps" && Runnable(calls[k]) ==>
              && outcomes[k].Combined?
              && (forall i | 0 <= i < |outcomes[k].steps| ::
                    outcomes[k].steps[i] == StepResult(calls[k].steps.value[i].id, Ran))
              && (a.course.stops == b.course.stops ==> |outcomes[k].steps| == |calls[k].steps.value|)
  {
    hide Passes;
    assert Told(a, b, calls[k], outcomes[k]);
    if calls[k].name == "steps" && outcomes[k].Combined? {
      var steps, results := calls[k].steps.value, outcomes[k].steps;
      forall i | 0 <= i < |results|
        ensures results[i] == StepResult(steps[i].id, Ran)
      {
        assert ToldAlone(a, b, steps[i], results[i].outcome) && !OnlyAlone(steps[i]);
      }
    }
  }
}
