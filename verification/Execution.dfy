/**
  Running the calls of a completion. Saving, showing an event and being
  cancelled may each stop the turn at any point; wherever that happens, the
  transcript still gets exactly one result for each call.
 */
module Execution {
  import opened Compaction
  import opened Gate
  import Inbox
  import Permissions
  import Projection
  import opened Receipts
  import opened Transcript
  import opened Wrappers

  const MAX_PARALLEL_CALLS: nat := 4

  function ModeOf(call: ToolCall): Mode {
    if call.name in {"agent", "todo_list", "ask_user", "steps"} then Serial else call.wanted
  }

  /** The calls that get a result now when the question at `gap` waits. */
  function Without(calls: seq<ToolCall>, gap: nat): seq<ToolCall>
    requires gap < |calls|
  {
    calls[..gap] + calls[gap + 1..]
  }

  /** What a request to the model is projected from, the state it sends,
      whether it was answered or refused as too long, and whether the context was
      replaced since the request before. */
  datatype Asking = Asking(
    context: Projection.Context,
    messages: seq<Message>,
    state: Option<string>,
    answered: bool,
    tooLong: bool,
    replaced: bool
  )

  /** What becomes of asking the user: whether a surface takes the request, whether
      it is shown, what is decided, whether that can be saved, whether the call
      still touches the same, and the level by then. */
  datatype Reply = Reply(
    begun: bool,
    shown: bool,
    decided: Option<Permissions.Decision>,
    saved: bool,
    same: bool,
    level: Permissions.Level
  )

  /** Calls of one mode with different identifiers. */
  ghost predicate AlikeAndApart(batch: seq<ToolCall>, mode: Mode) {
    && (forall k | 0 <= k < |batch| :: ModeOf(batch[k]) == mode)
    && forall j, k | 0 <= j < k < |batch| :: batch[j].id != batch[k].id
  }

  lemma OneMoreTogether(batch: seq<ToolCall>, mode: Mode, call: ToolCall)
    requires AlikeAndApart(batch, mode) && ModeOf(call) == mode && call.id !in Ids(batch)
    ensures AlikeAndApart(batch + [call], mode)
  {
    hide ModeOf;
    forall k | 0 <= k < |batch|
      ensures batch[k].id != call.id
    {
      assert Ids(batch)[k] == batch[k].id;
    }
  }

  lemma NobodyAlone(batch: seq<ToolCall>, mode: Mode)
    requires AlikeAndApart(batch, mode) && mode != Serial
    ensures forall k | 0 <= k < |batch| :: !OnlyAlone(batch[k])
  {
    forall k | 0 <= k < |batch|
      ensures !OnlyAlone(batch[k])
    {
      assert ModeOf(batch[k]) == mode;
    }
  }

  lemma NobodyTogether(mode: Mode)
    ensures AlikeAndApart([], mode) && Ids([]) == []
  {
  }

  lemma OneMoreId(batch: seq<ToolCall>, call: ToolCall)
    ensures Ids(batch + [call]) == Ids(batch) + [call.id]
  {
  }

  /** The longest run of neighbouring calls that go together: of one mode, at
      most four, none repeating an identifier, and none gated when it was looked
      at. The checks from `first` on are those of the calls, in order. A call
      that is gated or wants to be alone goes alone. */
  ghost predicate Longest(checks: seq<Check>, first: nat, calls: seq<ToolCall>, index: nat, end: nat) {
    && first < |checks| && index < |calls| && index <= end <= |calls| && checks[first].call == calls[index]
    && var mode := ModeOf(calls[index]);
       if IsGated(checks[first]) || mode == Serial then end == index + 1
       else
         && end - index <= MAX_PARALLEL_CALLS && AlikeAndApart(calls[index..end], mode)
         && (|| end == |calls| || end - index == MAX_PARALLEL_CALLS || ModeOf(calls[end]) != mode
             || (checks[|checks| - 1].call == calls[end]
                 && (IsGated(checks[|checks| - 1]) || calls[end].id in Ids(calls[index..end]))))
  }

  class Agent {
    var messages: seq<Message>
    /** Step results of a running `steps` call. */
    var chain: Option<seq<StepResult>>
    var question: Option<string>
    /** The open question was saved to be answered in a later session. */
    var suspended: bool
    /** Every tool launched so far. */
    ghost var launched: multiset<string>
    /** Every look at a call's permission, and which let which tool start. */
    ghost var log: Log
    /** How things went so far. */
    ghost var course: Course
    /** What each model request was made from. */
    ghost var requests: seq<Asking>
    const inbox: Inbox.Entries
    var context: Projection.Context
    /** Another context was put in place since the last request. */
    ghost var replaced: bool
    /** The transcript whose size was last compared with the budget. */
    ghost var sized: seq<Message>
    /** What the last successful checkpoint saved. */
    ghost var saved: (Projection.Context, seq<Message>)

    constructor (inbox: Inbox.Entries)
      ensures messages == [System] && Idle() && chain == None && requests == [] && this.inbox == inbox
      ensures Lawful() && launched == multiset{}
      ensures SoundFor(context, messages) && saved == (context, messages)
    {
      this.inbox := inbox;
      messages, chain, question, suspended := [System], None, None, false;
      launched, log, requests, course := multiset{}, Log([], []), [], Course(0, 0, 0, []);
      context, replaced, sized := Projection.Context(1, "", {}, 0, 0, [], 0, None), false, [];
      saved := (Projection.Context(1, "", {}, 0, 0, [], 0, None), [System]);
    }

    /** No question is open. */
    ghost predicate Idle()
      reads this
    {
      question == None && !suspended
    }

    /** Every tool launched so far had passed a check of its own. */
    ghost predicate Lawful()
      reads this`log, this`launched
    {
      Vetted(log, launched)
    }

    /** Whatever follows, a checkpoint can be loaded again: the context fits the
        transcript of this moment, as what was saved fitted the one of then. */
    ghost predicate Sealed()
      reads this`context, this`messages, this`saved
    {
      Inside(context, messages) && SoundFor(saved.0, saved.1)
    }

    ghost function Now(): Trace
      reads this
    {
      Trace(messages, chain, launched)
    }

    ghost function Here(): Point
      reads this`course, this`log
    {
      Point(course, log.checks)
    }

    // ----- What may fail

    /** Saves the context and the transcript of this moment. */
    method Checkpoint() returns (ok: bool)
      requires SoundFor(context, messages)
      modifies this`saved, this`course
      ensures saved == if ok then (context, messages) else old(saved)
      ensures course == Counted(old(course), ok)
    {
      ok := *;
      if ok {
        saved := (context, messages);
      }
      course := Counted(course, ok);
    }

    method Save() returns (ok: bool)
      requires Sealed()
      modifies this`saved, this`course
      ensures Sealed() && course == Counted(old(course), ok)
      ensures saved == if ok then (context, messages) else old(saved)
    {
      hide SoundFor, Inside;
      InsideIsSound(context, messages);
      ok := Checkpoint();
    }

    method Emit(ghost event: Shown) returns (ok: bool)
      modifies this`course
      ensures course == Emitted(old(course), event, ok)
    {
      ok := *;
      course := Emitted(course, event, ok);
    }

    /** Shows that each call starts, or what became of it. */
    method EmitEach(calls: seq<ToolCall>, ghost finished: bool) returns (ok: bool)
      modifies this`course
      ensures ok ==> course == old(course).(shown := old(course).shown + Each(calls, finished))
      ensures Passed(old(Here()), Here()) && course.failures == old(course).failures + if ok then 0 else 1
    {
      if calls != [] {
        EachMore(course.shown, calls, finished, 0);
      }
      for k := 0 to |calls|
        invariant course == old(course).(shown := old(course).shown + Each(calls[..k], finished))
      {
        EachMore(old(course).shown, calls, finished, k);
        ok := Emit(if finished then Finished(calls[k].id) else Started(calls[k].id));
        if !ok {
          return;
        }
      }
      assert calls[..|calls|] == calls;
      ok := true;
    }

    /** Something else stops the turn: the model, or what it has to be asked with. */
    method Stop()
      modifies this`course
      ensures course == Counted(old(course), false)
    {
      course := Counted(course, false);
    }

    /** What was last saved is the conversation as it is. */
    ghost predicate Kept()
      reads this`saved, this`context, this`messages
    {
      saved == (context, messages)
    }

    /** A cancellation that is noticed stops the turn. */
    method Cancelled() returns (requested: bool)
      modifies this`course
      ensures course == Counted(old(course), !requested)
    {
      requested := *;
      course := Counted(course, !requested);
    }

    // ----- Permission

    /** Whether the call has to run on its own. The level, the grants and what
        the call would touch are those of this moment. */
    method Gated(call: ToolCall) returns (gated: bool, ghost check: Check)
      requires Lawful()
      modifies this`log
      ensures Lawful() && check.call == call && gated == IsGated(check)
      ensures log == Log(old(log).checks + [check], old(log).starts) && Before(log, |old(log).checks|)
    {
      var seen: Permissions.Level, level: Permissions.Level := *, *;
      var access: Option<Permissions.Access> := *;
      var grants: seq<Permissions.Grant> := *;
      var looked := Check(call, seen, access, level, grants, None);
      OneMoreCheck(log, launched, looked);
      log := log.(checks := log.checks + [looked]);
      return IsGated(looked), looked;
    }

    /** Whether the call may run, asking the user when it has to. */
    method Permit(call: ToolCall) returns (run: bool, ghost check: Check)
      requires Lawful()
      modifies this`log
      ensures Lawful() && check.call == call
      ensures run <==> Passes(check)
      ensures log == Log(old(log).checks + [check], old(log).starts) && Before(log, |old(log).checks|)
    {
      hide SoundFor, Inside, Vetted;
      var seen: Permissions.Level, level: Permissions.Level := *, *;
      var access: Option<Permissions.Access> := *;
      var grants: seq<Permissions.Grant> := *;
      var looked := Check(call, seen, access, level, grants, None);
      if BrowserRefused(call, seen) {
        run := false;
      } else {
        match access {
          case None =>
            run := call.name != "exec";
          case Some(touched) =>
            match Permissions.Assessed(level, grants, touched) {
              case Allow => run := true;
              case Unavailable => run := false;
              case Ask =>
                var asked;
                ghost var reply;
                run, asked, reply := AskPermission();
                looked := looked.(approval := asked);
            }
        }
      }
      check := looked;
      OneMoreCheck(log, launched, check);
      log := log.(checks := log.checks + [check]);
    }

    /** The request may not be shown, saved or decided; the call may touch
        something else by now; and the level may have become Read. */
    method AskPermission() returns (run: bool, approval: Option<Approval>, ghost reply: Reply)
      ensures approval ==
              if reply.begun && reply.shown && reply.decided.Some? && reply.saved
                 && (reply.decided.value == Permissions.Deny || reply.same)
              then Some(Approval(reply.decided.value, reply.level)) else None
      ensures run <==>
              && reply.begun && reply.shown && reply.decided.Some? && reply.saved && reply.same
              && reply.decided.value != Permissions.Deny && reply.level != Permissions.Read
    {
      run, approval := false, None;
      var begun: bool, shown: bool, decided: Option<Permissions.Decision> := *, *, *;
      var saved: bool, same: bool, level: Permissions.Level := *, *, *;
      reply := Reply(begun, shown, decided, saved, same, level);
      if begun && shown && decided.Some? {
        if saved && (decided.value == Permissions.Deny || same) {
          approval := Some(Approval(decided.value, level));
          run := decided.value != Permissions.Deny && level != Permissions.Read;
        }
      }
    }

    // ----- Recording

    method ToolResult(call: ToolCall, outcome: Outcome)
      requires Sealed()
      modifies this`messages, this`chain
      ensures Sealed() && chain.Some? == old(chain).Some?
      ensures old(chain).None? ==> messages == old(messages) + Results([call], [outcome])
      ensures old(chain).Some? ==>
                messages == old(messages) && chain.value == old(chain).value + StepResults([call], [outcome])
    {
      hide SoundFor, Inside;
      InsideStays(context, messages, [Tool(call.id, outcome)]);
      if chain.Some? {
        chain := Some(chain.value + [StepResult(call.id, outcome)]);
      } else {
        messages := messages + [Tool(call.id, outcome)];
      }
    }

    /** A result for a call that launched nothing. */
    method Decline(call: ToolCall, outcome: Outcome)
      requires Sealed() && outcome in {NotExecuted, Refused, Answered}
      modifies this`messages, this`chain
      ensures Sealed() && chain.Some? == old(chain).Some?
      ensures Follows(old(Now()), Now(), [call], [outcome])
    {
      hide SoundFor, Inside;
      ToolResult(call, outcome);
      LaunchedOne(call, outcome);
    }

    method CancelCalls(calls: seq<ToolCall>)
      requires Sealed()
      modifies this`messages, this`chain
      ensures Sealed() && chain.Some? == old(chain).Some?
      ensures Follows(old(Now()), Now(), calls, AllNotExecuted(|calls|))
    {
      hide SoundFor, Inside, Follows;
      FollowsNothing(Now());
      for k := 0 to |calls|
        invariant Sealed() && chain.Some? == old(chain).Some?
        invariant Follows(old(Now()), Now(), calls[..k], AllNotExecuted(k))
      {
        ghost var before := Now();
        Decline(calls[k], NotExecuted);
        FollowsBoth(old(Now()), before, Now(), calls[..k], AllNotExecuted(k), [calls[k]], [NotExecuted]);
        assert calls[..k] + [calls[k]] == calls[..k + 1];
        assert AllNotExecuted(k) + [NotExecuted] == AllNotExecuted(k + 1);
      }
      assert calls[..|calls|] == calls;
    }

    /** Cancels what comes after calls that already have their results. */
    method CancelRest(
      ghost before: Trace, ghost calls: seq<ToolCall>, ghost outcomes: seq<Outcome>, rest: seq<ToolCall>
    )
      requires Sealed() && Follows(before, Now(), calls, outcomes)
      modifies this`messages, this`chain
      ensures Sealed() && chain.Some? == old(chain).Some?
      ensures Follows(before, Now(), calls + rest, outcomes + AllNotExecuted(|rest|))
    {
      hide SoundFor, Inside, Follows;
      ghost var middle := Now();
      CancelCalls(rest);
      FollowsBoth(before, middle, Now(), calls, outcomes, rest, AllNotExecuted(|rest|));
    }

    // ----- One call

    /** The tool itself, in this thread or on a worker, let start by a check. */
    method Launch(call: ToolCall, ghost at: nat, ghost together: bool) returns (outcome: Outcome)
      requires Lawful() && at < |log.checks| && log.checks[at].call == call && Before(log, at)
      requires if together then !IsGated(log.checks[at]) else Passes(log.checks[at])
      requires Kept()
      modifies this`launched, this`log, this`course
      ensures Lawful() && log == old(log).(starts := old(log).starts + [Start(at, together)])
      ensures Before(log, at + 1)
      ensures outcome in {Ran, Unknown} && launched == old(launched) + multiset{call.id}
      ensures course == if outcome == Ran then old(course) else old(course).(lost := old(course).lost + 1)
    {
      OneMoreStart(log, launched, at, together);
      log := log.(starts := log.starts + [Start(at, together)]);
      launched := launched + multiset{call.id};
      var finished: bool := *;
      outcome := if finished then Ran else Unknown;
      if !finished {
        course := course.(lost := course.lost + 1);
      }
    }

    method RunTool(call: ToolCall, ghost at: nat) returns (ghost outcome: Outcome)
      requires Sealed() && Lawful() && at < |log.checks| && log.checks[at].call == call && Before(log, at)
      requires Passes(log.checks[at]) && Kept()
      modifies this`messages, this`chain, this`launched, this`log, this`course
      ensures Sealed() && Lawful() && Follows(old(Now()), Now(), [call], [outcome])
      ensures outcome in {Ran, Unknown} && log.checks == old(log).checks && chain.Some? == old(chain).Some?
      ensures course == if outcome == Ran then old(course) else old(course).(lost := old(course).lost + 1)
    {
      hide SoundFor, Inside, Vetted, Passes, IsGated;
      var ran := Launch(call, at, false);
      outcome := ran;
      ToolResult(call, ran);
      LaunchedOne(call, ran);
    }

    /** Asks the user; the question may stay open when the session is left. */
    method Ask(call: ToolCall)
      requires Idle()
      modifies this`question, this`suspended
      ensures question in {None, Some(call.id)} && (suspended ==> question.Some?)
    {
      var begun: bool := *;
      if begun {
        question := Some(call.id);
        suspended := *;
      }
    }

    /** Runs one call and records it. A saved question records nothing. */
    method Settle(call: ToolCall, ghost first: Point) returns (ghost outcome: Outcome)
      requires Sealed() && Lawful() && Idle() && call.name != "steps" && (chain.Some? ==> call.name != "ask_user")
      requires Kept() && Passed(first, Here()) && Showed(first, Here(), Started(call.id))
      modifies this`messages, this`chain, this`question, this`suspended, this`launched, this`log, this`course
      ensures Sealed() && Lawful()
      ensures suspended ==> Now() == old(Now()) && question == Some(call.id) && call.name == "ask_user"
      ensures !suspended ==> Idle() && Follows(old(Now()), Now(), [call], [outcome])
      ensures Passed(old(Here()), Here()) && course.failures == old(course).failures
      ensures chain.Some? == old(chain).Some?
      ensures !suspended ==> outcome != NotExecuted && Told(first, Here(), call, outcome)
    {
      hide SoundFor, Inside, Follows, Vetted, Passes, Allowed, Told, ToldAlone, Showed;
      ghost var here := Here();
      ghost var check;
      var permitted;
      permitted, check := Permit(call);
      if !permitted {
        outcome := Refused;
        Decline(call, Refused);
        RefusedIsTold(here, Here(), call, check);
        ToldWider(first, here, Here(), Here(), call, outcome);
      } else if call.name == "ask_user" {
        outcome := Answered;
        Ask(call);
        if suspended {
          return;
        }
        Decline(call, Answered);
        question := None;
        AnsweredIsTold(first, Here(), call);
      } else {
        outcome := RunTool(call, |log.checks| - 1);
        Same(first);
        ShowedWider(first, first, here, Here(), Started(call.id));
        WorkIsTold(first, Here(), call, outcome);
      }
    }

    /** Runs one call. When it fails the calls after it are cancelled. */
    method ExecuteOne(call: ToolCall, remaining: seq<ToolCall>) returns (ok: bool, ghost outcome: Outcome)
      requires Sealed() && Lawful() && Idle() && (chain.Some? ==> call.name !in {"steps", "ask_user"})
      modifies this`messages, this`chain, this`question, this`suspended, this`launched,
               this`log, this`saved, this`course
      ensures Sealed() && Lawful()
      ensures ok ==> Idle() && Follows(old(Now()), Now(), [call], [outcome])
      ensures !suspended ==> Idle()
      ensures !ok && !suspended ==>
                Follows(old(Now()), Now(), [call] + remaining, [outcome] + AllNotExecuted(|remaining|))
      ensures suspended ==> !ok && question == Some(call.id) && call.name == "ask_user"
      ensures suspended ==> Follows(old(Now()), Now(), remaining, AllNotExecuted(|remaining|))
      ensures Passed(old(Here()), Here()) && chain.Some? == old(chain).Some?
      ensures !suspended ==> Told(old(Here()), Here(), call, outcome)
      ensures ok || suspended <==> course.failures == old(course).failures
      ensures ok ==> outcome != NotExecuted && (chain == None ==> Kept())
      ensures ok ==> Ended(old(Here()), Here(), [call], [outcome])
      decreases if chain.Some? then 0 else 1, 0
    {
      hide SoundFor, Inside, Follows, Vetted, Told, Passes, Allowed, Showed;
      if call.name == "steps" {
        ok, outcome := ExecuteSteps(call, remaining);
        return;
      }
      ghost var first := Here();
      ok := Announce(call);
      if !ok {
        outcome := NotExecuted;
        SkippedIsTold(first, Here(), call);
        Decline(call, NotExecuted);
        CancelRest(old(Now()), [call], [NotExecuted], remaining);
        return;
      }
      outcome := Settle(call, first);
      if suspended {
        CancelCalls(remaining);
        return false, outcome;
      }
      ghost var settled := Here();
      ok := Conclude(call);
      ToldLater(first, settled, Here(), call, outcome);
      if ok {
        ShowedWider(first, settled, Here(), Here(), Finished(call.id));
        assert forall k | 0 <= k < |[call]| :: [call][k] == call;
      } else {
        CancelRest(old(Now()), [call], [outcome], remaining);
      }
    }

    /** What is saved and shown before a call starts. */
    method Announce(call: ToolCall) returns (ok: bool)
      requires Sealed()
      modifies this`saved, this`course
      ensures Sealed() && Passed(old(Here()), Here())
      ensures course.failures == old(course).failures + if ok then 0 else 1
      ensures ok ==> Kept() && Showed(old(Here()), Here(), Started(call.id))
    {
      hide SoundFor, Inside;
      ghost var first := Here();
      ok := Save();
      if ok {
        ok := Emit(Started(call.id));
      }
      ghost var shown := Here();
      var note: bool := *;
      if ok && note {
        ok := Emit(Other);
      }
      assert ok ==> shown.course.shown[|first.course.shown|] == Started(call.id);
      assert ok ==> course.shown[|first.course.shown|] == Started(call.id);
    }

    /** What is saved and shown once a call is done; the steps of a call are
        saved together. */
    method Conclude(call: ToolCall) returns (ok: bool)
      requires Sealed()
      modifies this`saved, this`course
      ensures Sealed() && Passed(old(Here()), Here())
      ensures course.failures == old(course).failures + if ok then 0 else 1
      ensures ok ==> Showed(old(Here()), Here(), Finished(call.id)) && (chain == None ==> Kept())
    {
      hide SoundFor, Inside;
      ok := true;
      if chain.None? {
        ok := Save();
      }
      var changed: bool := *;
      if ok && changed {
        ok := Emit(Other);
      }
      ghost var before := course.shown;
      if ok {
        ok := Emit(Finished(call.id));
      }
      if ok {
        ok := Emit(Other);
      }
      assert ok ==> course.shown[|before|] == Finished(call.id);
    }

    /** One combined result, however many of the steps ran. */
    method ExecuteSteps(call: ToolCall, remaining: seq<ToolCall>) returns (ok: bool, ghost outcome: Outcome)
      requires Sealed() && Lawful() && Idle() && chain == None && call.name == "steps"
      modifies this`messages, this`chain, this`question, this`suspended, this`launched,
               this`log, this`saved, this`course
      ensures Sealed() && Lawful() && Idle() && chain == None
      ensures ok ==> Follows(old(Now()), Now(), [call], [outcome])
      ensures !ok ==> Follows(old(Now()), Now(), [call] + remaining, [outcome] + AllNotExecuted(|remaining|))
      ensures outcome == Refused || outcome.Combined?
      ensures outcome.Combined? <==>
              && call.steps.Some? && |call.steps.value| > 0
              && forall k | 0 <= k < |call.steps.value| :: call.steps.value[k].name !in {"steps", "ask_user"}
      ensures Passed(old(Here()), Here()) && Told(old(Here()), Here(), call, outcome)
      ensures ok <==> course.failures == old(course).failures
      ensures ok ==> Kept() && Ended(old(Here()), Here(), [call], [outcome])
      decreases 0, 4
    {
      hide SoundFor, Inside, Vetted, Follows;
      if !Runnable(call) {
        outcome := Refused;
        ok := Emit(Started(call.id));
        Decline(call, Refused);
        if ok {
          ok := Save();
        }
        ghost var before := course.shown;
        if ok {
          ok := Emit(Finished(call.id));
        }
        assert ok ==> course.shown[|before|] == Finished(call.id);
      } else {
        ok, outcome := RunChain(call, call.steps.value);
      }
      if !ok {
        CancelRest(old(Now()), [call], [outcome], remaining);
      }
    }

    method RunChain(call: ToolCall, steps: seq<ToolCall>) returns (ok: bool, ghost outcome: Outcome)
      requires Sealed() && Lawful() && Idle() && chain == None
      requires forall k | 0 <= k < |steps| :: !OnlyAlone(steps[k])
      modifies this`messages, this`chain, this`question, this`suspended, this`launched,
               this`log, this`saved, this`course
      ensures Sealed() && Lawful() && Idle() && chain == None && outcome.Combined?
      ensures Follows(old(Now()), Now(), [call], [outcome])
      ensures Passed(old(Here()), Here()) && ToldSteps(old(Here()), Here(), steps, outcome.steps)
      ensures ok <==> course.failures == old(course).failures
      ensures ok ==> Kept()
      decreases 0, 3
    {
      hide SoundFor, Inside, Vetted, LaunchedSteps, Results, StepResults, Follows, ToldAlone;
      var combined;
      ok, combined := RunSteps(steps);
      ghost var ran := Here();
      outcome := Combined(combined);
      ToolResult(call, Combined(combined));
      CombinedFollows(old(Now()), Now(), call, combined);
      var saved := Save();
      ok := ok && saved;
      ToldStepsLater(old(Here()), ran, Here(), steps, combined);
    }

    /** Runs the steps in order until one fails; the transcript is untouched. */
    method RunSteps(steps: seq<ToolCall>) returns (ok: bool, combined: seq<StepResult>)
      requires Sealed() && Lawful() && Idle() && chain == None
      requires forall k | 0 <= k < |steps| :: !OnlyAlone(steps[k])
      modifies this`messages, this`chain, this`question, this`suspended, this`launched,
               this`log, this`saved, this`course
      ensures Sealed() && Lawful() && Idle() && chain == None && messages == old(messages)
      ensures launched == old(launched) + LaunchedSteps(combined)
      ensures Passed(old(Here()), Here()) && ToldSteps(old(Here()), Here(), steps, combined)
      ensures ok <==> course.failures == old(course).failures
      decreases 0, 2
    {
      hide SoundFor, Inside, Follows, Vetted, ToldAll, Told, ToldSteps;
      chain := Some([]);
      ok := true;
      ghost var start := Now();
      ghost var outcomes: seq<Outcome> := [];
      ghost var first := Here();
      FollowsNothing(start);
      ToldNothing(first, first);
      for k := 0 to |steps|
        invariant Sealed() && Lawful() && Idle() && chain.Some? && |outcomes| == k && ok
        invariant Follows(start, Now(), steps[..k], outcomes)
        invariant Passed(first, Here()) && ToldAll(first, Here(), steps[..k], outcomes)
        invariant course.failures == first.course.failures
      {
        ghost var before := Here();
        var cancelled := Cancelled();
        ToldAllLater(first, before, Here(), steps[..k], outcomes);
        if cancelled {
          ok := false;
          break;
        }
        var stopped;
        ok, stopped, outcomes := OneMoreStep(start, first, steps, k, outcomes);
        if !ok || stopped {
          break;
        }
      }
      ChainDone(start, Now(), steps[..|outcomes|], outcomes);
      ToldInOrder(first, Here(), steps, outcomes);
      combined := chain.value;
      chain := None;
    }

    /** Runs one step; what its result says may stop the others. */
    method OneMoreStep(
      ghost start: Trace, ghost first: Point, steps: seq<ToolCall>, k: nat, ghost outcomes: seq<Outcome>
    )
      returns (ok: bool, stopped: bool, ghost more: seq<Outcome>)
      requires Sealed() && Lawful() && Idle() && chain.Some? && k < |steps| && !OnlyAlone(steps[k])
      requires |outcomes| == k && Follows(start, Now(), steps[..k], outcomes)
      requires Passed(first, Here()) && ToldAll(first, Here(), steps[..k], outcomes)
      modifies this`messages, this`chain, this`question, this`suspended, this`launched,
               this`log, this`saved, this`course
      ensures Sealed() && Lawful() && Idle() && chain.Some?
      ensures |more| == k + 1 && Follows(start, Now(), steps[..k + 1], more)
      ensures Passed(first, Here()) && ToldAll(first, Here(), steps[..k + 1], more)
      ensures ok <==> course.failures == old(course).failures
      ensures stopped ==> first.course.stops < course.stops
      decreases 0, 1
    {
      ghost var before, there := Now(), Here();
      ghost var outcome;
      hide SoundFor, Inside, Vetted, ToldAll, Told;
      ok, outcome := ExecuteOne(steps[k], []);
      hide SoundFor, Inside, Follows;
      ToldOne(there, Here(), steps[k], outcome);
      ToldBoth(first, there, Here(), steps[..k], outcomes, [steps[k]], [outcome]);
      assert [steps[k]] + [] == [steps[k]] && [outcome] + AllNotExecuted(0) == [outcome];
      FollowsBoth(start, before, Now(), steps[..k], outcomes, [steps[k]], [outcome]);
      more := outcomes + [outcome];
      assert steps[..k] + [steps[k]] == steps[..k + 1];
      stopped := *;
      if stopped {
        ghost var ran := Here();
        course := course.(stops := course.stops + 1);
        ToldAllLater(first, ran, Here(), steps[..k + 1], more);
      }
    }

    // ----- Batches

    /** Workers share no turn state: all have finished before any is recorded. */
    method LaunchAll(batch: seq<ToolCall>, ghost first: nat) returns (outcomes: seq<Outcome>)
      requires Lawful() && Cleared(log, first, batch) && Kept()
      modifies this`launched, this`log, this`course
      ensures Lawful() && log.checks == old(log).checks
      ensures |outcomes| == |batch| && forall k | 0 <= k < |outcomes| :: outcomes[k] in {Ran, Unknown}
      ensures launched == old(launched) + multiset(Ids(batch))
      ensures log.starts == old(log).starts + Together(first, |batch|)
      ensures Passed(old(Here()), Here()) && course.failures == old(course).failures
      ensures Worked(old(Here()), Here(), outcomes)
    {
      hide SoundFor, Inside, Vetted, IsGated, Passes, AllOpen, Worked, Together;
      ghost var start, here := log, Here();
      outcomes := [];
      NobodyStarts(start.starts, first);
      NothingWorked(here, here);
      for k := 0 to |batch|
        invariant Lawful() && log.checks == start.checks && Before(log, first + k)
        invariant log.starts == start.starts + Together(first, k)
        invariant Passed(here, Here()) && course.failures == old(course).failures
        invariant |outcomes| == k && Worked(here, Here(), outcomes)
        invariant launched == old(launched) + multiset(Ids(batch)[..k])
      {
        ClearedAt(start, first, batch, k);
        ghost var before, there := log, Here();
        var o := Launch(batch[k], first + k, true);
        OneStartsMore(start.starts, first, k);
        WorkedMore(here, there, Here(), outcomes, o);
        outcomes := outcomes + [o];
        assert Ids(batch)[..k + 1] == Ids(batch)[..k] + [batch[k].id];
      }
      assert Ids(batch)[..|batch|] == Ids(batch);
      WorkersEnd(here, Here(), outcomes);
    }

    /** Records every outcome in source order, whatever order they came in. */
    method RecordBatch(batch: seq<ToolCall>, outcomes: seq<Outcome>)
      requires Sealed() && chain == None && |outcomes| == |batch|
      modifies this`messages, this`chain
      ensures Sealed() && chain == None && messages == old(messages) + Results(batch, outcomes)
    {
      hide SoundFor, Inside;
      for k := 0 to |batch|
        invariant Sealed() && chain == None && messages == old(messages) + Results(batch[..k], outcomes[..k])
      {
        ToolResult(batch[k], outcomes[k]);
        ResultsConcat(batch[..k], outcomes[..k], [batch[k]], [outcomes[k]]);
        assert batch[..k] + [batch[k]] == batch[..k + 1] && outcomes[..k] + [outcomes[k]] == outcomes[..k + 1];
      }
      assert batch[..|batch|] == batch && outcomes[..|batch|] == outcomes;
    }

    /** Cancels a batch that never started, and what comes after it. */
    method CancelBatch(batch: seq<ToolCall>, remaining: seq<ToolCall>)
      requires Sealed()
      modifies this`messages, this`chain
      ensures Sealed() && chain.Some? == old(chain).Some?
      ensures Follows(old(Now()), Now(), batch + remaining, AllNotExecuted(|batch|) + AllNotExecuted(|remaining|))
    {
      hide SoundFor, Inside, Follows;
      CancelCalls(batch);
      CancelRest(old(Now()), batch, AllNotExecuted(|batch|), remaining);
    }

    method RunBatch(batch: seq<ToolCall>, ghost first: nat) returns (ghost outcomes: seq<Outcome>)
      requires Kept() && Sealed() && Lawful() && Cleared(log, first, batch) && chain == None
      modifies this`messages, this`chain, this`launched, this`log, this`course
      ensures Sealed() && Lawful() && chain == None && |outcomes| == |batch|
      ensures Follows(old(Now()), Now(), batch, outcomes)
      ensures log == Log(old(log).checks, old(log).starts + Together(first, |batch|))
      ensures Passed(old(Here()), Here()) && course.failures == old(course).failures
      ensures Worked(old(Here()), Here(), outcomes)
    {
      hide SoundFor, Inside, LaunchedAll, Vetted, Cleared;
      var finished := LaunchAll(batch, first);
      outcomes := finished;
      assert forall k | 0 <= k < |finished| :: finished[k] in {Ran, Unknown};
      WorkersLaunched(batch, finished);
      RecordBatch(batch, finished);
    }

    method ExecuteParallelBatch(batch: seq<ToolCall>, remaining: seq<ToolCall>, ghost first: nat)
      returns (ok: bool, ghost outcomes: seq<Outcome>)
      requires Sealed() && Lawful() && Cleared(log, first, batch) && chain == None
      requires forall k | 0 <= k < |batch| :: !OnlyAlone(batch[k])
      modifies this`messages, this`chain, this`launched, this`log, this`saved, this`course
      ensures Sealed() && Lawful() && chain == None && |outcomes| == |batch|
      ensures ok ==> Follows(old(Now()), Now(), batch, outcomes)
      ensures !ok ==> Follows(old(Now()), Now(), batch + remaining, outcomes + AllNotExecuted(|remaining|))
      ensures Passed(old(Here()), Here()) && ToldAll(old(Here()), Here(), batch, outcomes)
      ensures ok <==> course.failures == old(course).failures
      ensures ok ==> Executed(outcomes) && Ended(old(Here()), Here(), batch, outcomes) && Kept()
      ensures || (Executed(outcomes) && log == Log(old(log).checks, old(log).starts + Together(first, |batch|)))
              || (!ok && log == old(log) && outcomes == AllNotExecuted(|batch|))
    {
      hide SoundFor, Inside, Vetted, Cleared, Told, Follows, Ended, Showed;
      ghost var start := Here();
      ok := Save();
      if ok {
        ok := EmitEach(batch, false);
      }
      if !ok {
        CancelBatch(batch, remaining);
        SkippedTold(start, Here(), batch);
        return ok, AllNotExecuted(|batch|);
      }
      ghost var shown := Here();
      EachShowed(start, shown, batch, false);
      outcomes := RunBatch(batch, first);
      ghost var ran := Here();
      WorkedIsTold(start, shown, ran, batch, outcomes);
      ok := ConcludeBatch(batch, outcomes);
      ToldAllLater(start, ran, Here(), batch, outcomes);
      if ok {
        EndedWider(start, ran, Here(), Here(), batch, outcomes);
      } else {
        CancelRest(old(Now()), batch, outcomes, remaining);
      }
    }

    /** What is saved and shown once all tools of a batch have finished. */
    method ConcludeBatch(batch: seq<ToolCall>, ghost outcomes: seq<Outcome>) returns (ok: bool)
      requires Sealed() && |batch| == |outcomes|
      modifies this`saved, this`course
      ensures Sealed() && Passed(old(Here()), Here())
      ensures course.failures == old(course).failures + if ok then 0 else 1
      ensures ok ==> Ended(old(Here()), Here(), batch, outcomes) && Kept()
    {
      hide SoundFor, Inside, Showed;
      ghost var start := Here();
      ok := Save();
      if ok {
        ok := EmitEach(batch, true);
      }
      ghost var ended := Here();
      if ok {
        EachShowed(start, ended, batch, true);
        assert Ended(start, ended, batch, outcomes);
        ok := Emit(Other);
      }
      if ok {
        var cancelled := Cancelled();
        ok := !cancelled;
      }
      if ok {
        EndedWider(start, start, ended, Here(), batch, outcomes);
      }
    }

    /** Everything a declared batch does before its workers start. */
    method Prepare(batch: seq<ToolCall>) returns (ok: bool)
      requires Sealed()
      modifies this`saved, this`course
      ensures Sealed() && Passed(old(Here()), Here())
      ensures course.failures == old(course).failures + if ok then 0 else 1
      ensures ok ==> Kept() && forall k | 0 <= k < |batch| :: Showed(old(Here()), Here(), Started(batch[k].id))
    {
      hide SoundFor, Inside, Showed;
      ghost var start := Here();
      ok := Save();
      if ok {
        ok := EmitEach(batch, false);
      }
      ghost var shown := Here();
      if ok {
        EachShowed(start, shown, batch, false);
      }
      for k := 0 to |batch|
        invariant Sealed() && Passed(shown, Here()) && (ok ==> Kept())
        invariant ok ==> forall i | 0 <= i < |batch| :: Showed(start, shown, Started(batch[i].id))
        invariant course.failures == start.course.failures + if ok then 0 else 1
      {
        if ok {
          var cancelled := Cancelled();
          ok := !cancelled;
        }
        var note: bool := *;
        if ok && note {
          ok := Emit(Other);
        }
      }
      if ok {
        var cancelled := Cancelled();
        ok := !cancelled;
      }
      Same(start);
      forall k | ok && 0 <= k < |batch|
        ensures Showed(start, Here(), Started(batch[k].id))
      {
        ShowedWider(start, start, shown, Here(), Started(batch[k].id));
      }
    }

    /** Workers report in any order; one that died reports nothing, and a
        report that cannot be saved stops the later ones from being saved. */
    method Collect(ghost batch: seq<ToolCall>, finished: seq<Outcome>) returns (outcomes: seq<Outcome>, failure: bool)
      requires Sealed() && forall k | 0 <= k < |finished| :: finished[k] in {Ran, Unknown}
      requires |batch| == |finished|
      modifies this`saved, this`course
      ensures Sealed() && |outcomes| == |finished|
      ensures forall k | 0 <= k < |outcomes| ::
                outcomes[k] == finished[k] || (outcomes[k] == Unknown && course.lost > old(course).lost)
      ensures Passed(old(Here()), Here()) && course.failures == old(course).failures + if failure then 1 else 0
      ensures !failure ==> forall k | 0 <= k < |outcomes| && outcomes[k] != Unknown ::
                Showed(old(Here()), Here(), Finished(batch[k].id))
    {
      hide SoundFor, Inside, Showed;
      ghost var start := Here();
      outcomes := seq(|finished|, _ => Unknown);
      failure := false;
      var waiting := set k {:trigger finished[k]} | 0 <= k < |finished|;
      while waiting != {}
        invariant Sealed() && |outcomes| == |finished|
        invariant forall k | k in waiting :: 0 <= k < |finished| && outcomes[k] == Unknown
        invariant forall k | 0 <= k < |outcomes| && k !in waiting ::
                    outcomes[k] == finished[k] || (outcomes[k] == Unknown && course.lost > start.course.lost)
        invariant Passed(start, Here()) && course.failures == start.course.failures + if failure then 1 else 0
        invariant !failure ==> forall k | 0 <= k < |outcomes| && outcomes[k] != Unknown ::
                    Showed(start, Here(), Finished(batch[k].id))
      {
        var index :| index in waiting;
        waiting := waiting - {index};
        ghost var before := Here();
        var died: bool := *;
        if died {
          course := course.(lost := course.lost + 1);
        } else {
          if !failure {
            failure := PublishFails(batch[index]);
          }
          outcomes := outcomes[index := finished[index]];
        }
        StillShowed(start, before, Here(), batch);
      }
    }

    /** Saves a worker's report and shows it. */
    method PublishFails(ghost call: ToolCall) returns (failure: bool)
      requires Sealed()
      modifies this`saved, this`course
      ensures Sealed() && Passed(old(Here()), Here()) && course.lost == old(course).lost
      ensures course.failures == old(course).failures + if failure then 1 else 0
      ensures !failure ==> Kept()
      ensures forall a | Passed(a, old(Here())) && !failure :: Showed(a, Here(), Finished(call.id))
    {
      hide SoundFor, Inside;
      var published := Save();
      if published {
        ghost var before := course.shown;
        published := Emit(Finished(call.id));
        assert published ==> course.shown[|before|] == Finished(call.id);
      }
      failure := !published;
    }

    method RunDeclared(batch: seq<ToolCall>, ghost first: nat) returns (failure: bool, ghost outcomes: seq<Outcome>)
      requires Kept() && Sealed() && Lawful() && Cleared(log, first, batch) && chain == None
      modifies this`messages, this`chain, this`launched, this`log, this`saved, this`course
      ensures Sealed() && Lawful() && chain == None && |outcomes| == |batch|
      ensures Follows(old(Now()), Now(), batch, outcomes)
      ensures log == Log(old(log).checks, old(log).starts + Together(first, |batch|))
      ensures Passed(old(Here()), Here()) && Worked(old(Here()), Here(), outcomes)
      ensures course.failures == old(course).failures + if failure then 1 else 0
      ensures !failure ==> Ended(old(Here()), Here(), batch, outcomes)
    {
      hide SoundFor, Inside, LaunchedAll, Vetted, Cleared;
      var finished := LaunchAll(batch, first);
      var collected;
      ghost var launchedAll := Here();
      collected, failure := Collect(batch, finished);
      outcomes := collected;
      WorkersLaunched(batch, collected);
      RecordBatch(batch, collected);
    }

    method ExecuteDeclaredBatch(batch: seq<ToolCall>, remaining: seq<ToolCall>, ghost first: nat)
      returns (ok: bool, ghost outcomes: seq<Outcome>)
      requires Sealed() && Lawful() && Cleared(log, first, batch) && chain == None
      requires forall k | 0 <= k < |batch| :: !OnlyAlone(batch[k])
      modifies this`messages, this`chain, this`launched, this`log, this`saved, this`course
      ensures Sealed() && Lawful() && chain == None && |outcomes| == |batch|
      ensures ok ==> Follows(old(Now()), Now(), batch, outcomes)
      ensures !ok ==> Follows(old(Now()), Now(), batch + remaining, outcomes + AllNotExecuted(|remaining|))
      ensures Passed(old(Here()), Here()) && ToldAll(old(Here()), Here(), batch, outcomes)
      ensures ok <==> course.failures == old(course).failures
      ensures ok ==> Executed(outcomes) && Ended(old(Here()), Here(), batch, outcomes) && Kept()
      ensures || (Executed(outcomes) && log == Log(old(log).checks, old(log).starts + Together(first, |batch|)))
              || (!ok && log == old(log) && outcomes == AllNotExecuted(|batch|))
    {
      hide SoundFor, Inside, Vetted, Cleared, Told, Follows;
      ghost var start := Here();
      ok := Prepare(batch);
      if !ok {
        CancelBatch(batch, remaining);
        var _ := Save();
        SkippedTold(start, Here(), batch);
        return ok, AllNotExecuted(|batch|);
      }
      ghost var shown := Here();
      var failure;
      failure, outcomes := RunDeclared(batch, first);
      ghost var ran := Here();
      WorkedIsTold(start, shown, ran, batch, outcomes);
      ok := Save();
      ok := ok && !failure;
      if ok {
        ok := Emit(Other);
      }
      if ok {
        var cancelled := Cancelled();
        ok := !cancelled;
      }
      ToldAllLater(start, ran, Here(), batch, outcomes);
      if ok {
        EndedWider(start, shown, ran, Here(), batch, outcomes);
      } else {
        CancelRest(old(Now()), batch, outcomes, remaining);
      }
    }

    // ----- All the calls of a completion

    /** The longest run of neighbouring calls, at most four, that go together:
        of one mode, none repeating an identifier, and none gated when checked.
        A call that is gated or wants to be alone goes alone. */
    method BatchEnd(calls: seq<ToolCall>, index: nat) returns (end: nat, selected: Mode)
      requires Lawful() && index < |calls|
      modifies this`log
      ensures Lawful() && index <= end <= |calls| && end - index <= MAX_PARALLEL_CALLS
      ensures old(log).checks < log.checks && log.starts == old(log).starts
      ensures Longest(log.checks, |old(log).checks|, calls, index, end)
      ensures selected ==
              if IsGated(log.checks[|old(log).checks|]) then Serial else ModeOf(calls[index])
      ensures selected == Serial ==> end == index + 1
      ensures selected != Serial ==> Cleared(log, |old(log).checks| + 1, calls[index..end])
      ensures selected != Serial ==> AlikeAndApart(calls[index..end], selected)
    {
      hide SoundFor, Inside, Vetted, IsGated, Cleared, AlikeAndApart, ModeOf, Ids;
      ghost var checks := log.checks;
      var gated, check := Gated(calls[index]);
      selected := if gated then Serial else ModeOf(calls[index]);
      if selected == Serial {
        return index + 1, selected;
      }
      ghost var first := |log.checks|;
      NothingCleared(log, |checks|);
      assert calls[index..index] == [];
      NobodyTogether(selected);
      var ids := {};
      end := index;
      while end < |calls| && end - index < MAX_PARALLEL_CALLS && ModeOf(calls[end]) == selected
        invariant Lawful() && index <= end <= |calls| && end - index <= MAX_PARALLEL_CALLS
        invariant forall id :: id in ids <==> id in Ids(calls[index..end])
        invariant |log.checks| == first + (end - index) && log.checks[..first] == checks + [check]
        invariant log.starts == old(log).starts
        invariant Cleared(log, first, calls[index..end]) && AlikeAndApart(calls[index..end], selected)
      {
        var refused;
        ghost var looked;
        ghost var before := log;
        refused, looked := Gated(calls[end]);
        OneMoreCleared(before, first, calls[index..end], looked);
        if refused || calls[end].id in ids {
          break;
        }
        OneMoreTogether(calls[index..end], selected, calls[end]);
        OneMoreId(calls[index..end], calls[end]);
        assert calls[index..end + 1] == calls[index..end] + [calls[end]];
        ids := ids + {calls[end].id};
        end := end + 1;
      }
    }

    method ExecuteAlone(calls: seq<ToolCall>, index: nat) returns (ok: bool, ghost outcomes: seq<Outcome>)
      requires Sealed() && Lawful() && Idle() && chain == None && index < |calls|
      modifies this`messages, this`chain, this`question, this`suspended, this`launched,
               this`log, this`saved, this`course
      ensures Sealed() && Lawful() && chain == None
      ensures ok ==> Idle() && Follows(old(Now()), Now(), calls[index..index + 1], outcomes)
      ensures !ok && !suspended ==>
                && Idle() && Failed(old(Here()), Here())
                && Follows(old(Now()), Now(), calls[index..], outcomes + AllNotExecuted(|calls| - index - 1))
      ensures suspended ==> !ok && calls[index].name == "ask_user" && question == Some(calls[index].id)
      ensures suspended ==> Follows(old(Now()), Now(), calls[index + 1..], AllNotExecuted(|calls| - index - 1))
      ensures Passed(old(Here()), Here())
      ensures !suspended ==> ToldAll(old(Here()), Here(), calls[index..index + 1], outcomes)
      ensures Executed(outcomes) || (!ok && outcomes == AllNotExecuted(1))
      ensures ok || suspended <==> course.failures == old(course).failures
      ensures ok ==> Ended(old(Here()), Here(), calls[index..index + 1], outcomes) && Kept()
    {
      hide SoundFor, Inside, Vetted, Told, Follows;
      ghost var outcome;
      ok, outcome := ExecuteOne(calls[index], calls[index + 1..]);
      outcomes := [outcome];
      ToldOne(old(Here()), Here(), calls[index], outcome);
      assert calls[index..index + 1] == [calls[index]] && [calls[index]] + calls[index + 1..] == calls[index..];
      assert !Executed(outcomes) ==> outcomes == AllNotExecuted(1);
    }

    /** Runs the calls from `index` that go together, up to `end`. */
    method ExecuteNext(calls: seq<ToolCall>, index: nat)
      returns (ok: bool, end: nat, ghost outcomes: seq<Outcome>)
      requires Sealed() && Lawful() && Idle() && chain == None && index < |calls|
      modifies this`messages, this`chain, this`question, this`suspended, this`launched,
               this`log, this`saved, this`course
      ensures Sealed() && Lawful() && chain == None && index < end <= |calls|
      ensures ok ==> Idle() && Follows(old(Now()), Now(), calls[index..end], outcomes)
      ensures !ok && !suspended ==> Idle() && Follows(old(Now()), Now(), calls[index..], outcomes)
      ensures suspended ==> !ok && calls[index].name == "ask_user" && question == Some(calls[index].id)
      ensures suspended ==> outcomes == AllNotExecuted(|calls| - index - 1)
      ensures suspended ==> Follows(old(Now()), Now(), calls[index + 1..], outcomes)
      ensures Passed(old(Here()), Here())
      ensures ok ==> ToldAll(old(Here()), Here(), calls[index..end], outcomes) && Executed(outcomes)
      ensures !ok && !suspended ==>
                && Failed(old(Here()), Here()) && ToldAll(old(Here()), Here(), calls[index..], outcomes)
                && Stops(outcomes, end - index)
      ensures ok || suspended <==> course.failures == old(course).failures
      ensures ok ==> Ended(old(Here()), Here(), calls[index..end], outcomes) && Kept()
      ensures Grouped(old(log), log, calls, index, end, ok)
    {
      hide SoundFor, Inside, Vetted, Cleared, IsGated, AlikeAndApart, ModeOf, Ids, LaunchedAll, Results, StepResults,
           Told, Longest, Follows, ToldAll, Executed, Together, Ended;
      ghost var first, start := |log.checks| + 1, Here();
      var selected;
      end, selected := BatchEnd(calls, index);
      ghost var looked, chosen, run := Here(), log, end;
      if end - index >= 2 {
        NobodyAlone(calls[index..end], selected);
        if selected == Declared {
          ok, outcomes := ExecuteDeclaredBatch(calls[index..end], calls[end..], first);
          assert calls[index..end] + calls[end..] == calls[index..];
        } else {
          ok, outcomes := ExecuteParallelBatch(calls[index..end], calls[end..], first);
          assert calls[index..end] + calls[end..] == calls[index..];
        }
      } else {
        end := index + 1;
        ok, outcomes := ExecuteAlone(calls, index);
      }
      assert log.checks[..|chosen.checks|] == chosen.checks;
      assert Grouped(old(log), log, calls, index, end, ok);
      if suspended {
        outcomes := AllNotExecuted(|calls| - index - 1);
      } else {
        ToldAllWider(start, looked, Here(), Here(), calls[index..end], outcomes);
        if ok {
          EndedWider(start, looked, Here(), Here(), calls[index..end], outcomes);
        } else {
          SkippedAfter(start, Here(), calls, index, end, outcomes);
          outcomes := outcomes + AllNotExecuted(|calls[end..]|);
        }
      }
    }

    /** Every call gets exactly one result, in source order, wherever the turn
        stops. Only a question saved for later leaves its own gap, and nothing
        after that gap was run. Nothing else is skipped, except behind a failure
        that stops the turn; and no result says less than what happened. */
    method ExecuteCalls(calls: seq<ToolCall>) returns (ok: bool, ghost outcomes: seq<Outcome>, ghost gap: nat)
      requires Sealed() && Lawful() && Idle() && chain == None
      modifies this`messages, this`chain, this`question, this`suspended, this`launched,
               this`log, this`saved, this`course
      ensures Sealed() && Lawful() && chain == None
      ensures !suspended ==> Idle() && Follows(old(Now()), Now(), calls, outcomes)
      ensures ok ==> !suspended
      ensures suspended ==> gap < |calls| && calls[gap].name == "ask_user" && question == Some(calls[gap].id)
      ensures suspended ==> Follows(old(Now()), Now(), Without(calls, gap), outcomes)
      ensures suspended ==> forall k | gap <= k < |outcomes| :: outcomes[k] == NotExecuted
      ensures Passed(old(Here()), Here())
      ensures ok ==> forall k | 0 <= k < |outcomes| :: outcomes[k] != NotExecuted
      ensures ok || suspended <==> course.failures == old(course).failures
      ensures ok ==> Ended(old(Here()), Here(), calls, outcomes) && (calls != [] ==> Kept())
      ensures !suspended ==> ToldAll(old(Here()), Here(), calls, outcomes)
      ensures forall j, k | 0 <= j < k < |outcomes| && outcomes[j] == NotExecuted :: outcomes[k] == NotExecuted
      ensures suspended ==>
                gap <= |outcomes| && Executed(outcomes[..gap])
                && ToldAll(old(Here()), Here(), calls[..gap], outcomes[..gap])
    {
      hide SoundFor, Inside, Follows, Vetted, ToldAll, Ended, Grouped;
      outcomes, gap := [], 0;
      ghost var first := Here();
      FollowsNothing(Now());
      ToldNothing(first, first);
      var index := 0;
      while index < |calls|
        invariant Sealed() && Lawful() && index <= |calls| && Idle() && chain == None
        invariant Follows(old(Now()), Now(), calls[..index], outcomes)
        invariant Passed(first, Here()) && ToldAll(first, Here(), calls[..index], outcomes) && Executed(outcomes)
        invariant Ended(first, Here(), calls[..index], outcomes) && (index > 0 ==> Kept())
        invariant course.failures == first.course.failures
      {
        ghost var before, there := Now(), Here();
        var cancelled := Cancelled();
        if cancelled {
          CancelRest(old(Now()), calls[..index], outcomes, calls[index..]);
          ToldThenSkipped(first, there, Here(), calls, index, outcomes);
          assert calls[..index] + calls[index..] == calls;
          return false, outcomes + AllNotExecuted(|calls[index..]|), gap;
        }
        ghost var more;
        var end;
        ok, end, more := ExecuteNext(calls, index);
        OneOutcomeEach(old(Now()), before, calls[..index], outcomes);
        if suspended {
          FollowsBoth(old(Now()), before, Now(), calls[..index], outcomes, calls[index + 1..], more);
          ToldAllLater(first, there, Here(), calls[..index], outcomes);
          assert (outcomes + more)[..index] == outcomes;
          return false, outcomes + more, index;
        }
        if !ok {
          FollowsBoth(old(Now()), before, Now(), calls[..index], outcomes, calls[index..], more);
          ToldBoth(first, there, Here(), calls[..index], outcomes, calls[index..], more);
          StopsLater(outcomes, more, end - index);
          assert calls[..index] + calls[index..] == calls;
          return false, outcomes + more, gap;
        }
        FollowsBoth(old(Now()), before, Now(), calls[..index], outcomes, calls[index..end], more);
        ToldBoth(first, there, Here(), calls[..index], outcomes, calls[index..end], more);
        EndedBoth(first, there, Here(), calls[..index], outcomes, calls[index..end], more);
        assert calls[..index] + calls[index..end] == calls[..end];
        outcomes := outcomes + more;
        index := end;
      }
      assert calls[..|calls|] == calls;
      ok := true;
    }
  }

  /** A call goes alone unless a longest run starts with it, whose tools then
      start together, right after the checks that chose them. */
  ghost predicate Grouped(before: Log, after: Log, calls: seq<ToolCall>, index: nat, end: nat, ok: bool) {
    exists n, run: nat ::
      && |before.checks| < n <= |after.checks| && Longest(after.checks[..n], |before.checks|, calls, index, run)
      && end == (if run - index >= 2 then run else index + 1)
      && (run - index >= 2 ==>
            && n == |after.checks|
            && (ok ==> after.starts == before.starts + Together(|before.checks| + 1, run - index)))
  }

  /** From some place on nothing was executed, and before it everything; a run
      that never started counts as a whole. */
  predicate Stops(outcomes: seq<Outcome>, n: nat) {
    && n <= |outcomes| && (Executed(outcomes[..n]) || outcomes[..n] == AllNotExecuted(n))
    && forall k | n <= k < |outcomes| :: outcomes[k] == NotExecuted
  }

  lemma StopsLater(done: seq<Outcome>, more: seq<Outcome>, n: nat)
    requires Executed(done) && Stops(more, n)
    ensures var all := done + more;
            forall j, k | 0 <= j < k < |all| && all[j] == NotExecuted :: all[k] == NotExecuted
  {
    var all := done + more;
    forall j, k | 0 <= j < k < |all| && all[j] == NotExecuted
      ensures all[k] == NotExecuted
    {
      assert j >= |done|;
      if k - |done| < n {
        assert more[..n][j - |done|] == NotExecuted;
        assert more[..n][k - |done|] == all[k];
      }
    }
  }

  lemma SkippedAfter(
    a: Point, b: Point, calls: seq<ToolCall>, index: nat, end: nat, outcomes: seq<Outcome>
  )
    requires index <= end <= |calls| && Failed(a, b) && Passed(a, b)
    requires ToldAll(a, b, calls[index..end], outcomes)
    requires Executed(outcomes) || outcomes == AllNotExecuted(end - index)
    ensures var all := outcomes + AllNotExecuted(|calls[end..]|);
            ToldAll(a, b, calls[index..], all) && Stops(all, end - index)
  {
    hide Told;
    var rest := AllNotExecuted(|calls[end..]|);
    Same(b);
    SkippedTold(a, b, calls[end..]);
    assert calls[index..] == calls[index..end] + calls[end..];
    assert (outcomes + rest)[..end - index] == outcomes;
  }

  lemma ToldThenSkipped(a: Point, b: Point, c: Point, calls: seq<ToolCall>, index: nat, outcomes: seq<Outcome>)
    requires index <= |calls| && Passed(a, b) && Passed(b, c) && Failed(b, c)
    requires ToldAll(a, b, calls[..index], outcomes) && Executed(outcomes)
    ensures var all := outcomes + AllNotExecuted(|calls[index..]|);
            && Passed(a, c) && Failed(a, c) && ToldAll(a, c, calls, all)
            && forall j, k | 0 <= j < k < |all| && all[j] == NotExecuted :: all[k] == NotExecuted
  {
    SkippedTold(b, c, calls[index..]);
    ToldBoth(a, b, c, calls[..index], outcomes, calls[index..], AllNotExecuted(|calls[index..]|));
    assert calls[..index] + calls[index..] == calls;
  }

  /** One combined result counts for every tool its steps launched. */
  lemma CombinedFollows(before: Trace, after: Trace, call: ToolCall, combined: seq<StepResult>)
    requires before.chain == None == after.chain
    requires after.messages == before.messages + Results([call], [Combined(combined)])
    requires after.launched == before.launched + LaunchedSteps(combined)
    ensures Follows(before, after, [call], [Combined(combined)])
  {
    LaunchedOne(call, Combined(combined));
    hide LaunchedAll, LaunchedSteps, Results;
  }

  lemma OneOutcomeEach(before: Trace, after: Trace, calls: seq<ToolCall>, outcomes: seq<Outcome>)
    requires Follows(before, after, calls, outcomes)
    ensures |calls| == |outcomes|
  {
  }
}
