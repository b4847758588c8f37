/**
  The turn of an agent: it asks the model, runs the calls of the answer and
  asks again, taking in what the user submits meanwhile. The model's answers
  are a script; everything else that may fail does so at any time.
 */
module Turn {
  import opened Compaction
  import opened Execution
  import opened Gate
  import Inbox
  import PendingState
  import Projection
  import opened Receipts
  import Strings
  import opened Transcript
  import opened Wrappers

  /** One answer of the model; `measured` when the provider counted the tokens
      of the request. */
  datatype Completion = Completion(calls: seq<ToolCall>, postprocessError: bool, measured: bool)

  /** How one pass of the request loop ends. */
  datatype Attempt =
    | Retry
    | Failed
    | TooLong
    | Answer(completion: Completion)

  function Users(prompts: seq<Inbox.Prompt>): (users: seq<Message>)
    ensures |users| == |prompts| && forall k | 0 <= k < |prompts| :: users[k] == User(prompts[k])
  {
    seq(|prompts|, k requires 0 <= k < |prompts| => User(prompts[k]))
  }

  // ----- What holds whenever the model is asked

  /** The context an answered request leaves, apart from what was measured. */
  function Left(a: Asking): Projection.Context {
    if a.answered then Projection.Accepted(a.context, a.messages, a.state) else a.context
  }

  predicate SameShown(c: Projection.Context, d: Projection.Context) {
    Projection.Unmeasured(c) == Projection.Unmeasured(d)
  }

  /** Every request was made from a transcript with all its calls answered and
      a context valid for it; each of those transcripts is a prefix of the next,
      and each context the one the request before left, unless it was replaced. */
  ghost predicate Asked(requests: seq<Asking>, messages: seq<Message>) {
    && (forall k | 0 <= k < |requests| ::
          && WellPaired(requests[k].messages) && SoundFor(requests[k].context, requests[k].messages)
          && requests[k].messages <= messages)
    && (forall j, k | 0 <= j < k < |requests| :: requests[j].messages <= requests[k].messages)
    && (forall k | 0 < k < |requests| && !requests[k].replaced ::
          SameShown(requests[k].context, Left(requests[k - 1])))
  }

  /** The context now is the one the last request left, unless it was replaced. */
  ghost predicate Current(requests: seq<Asking>, context: Projection.Context, replaced: bool) {
    requests != [] && !replaced ==> SameShown(context, Left(requests[|requests| - 1]))
  }

  /** From the request `from` on, a request that was too long is followed only by
      one with another context. */
  ghost predicate Shrinks(requests: seq<Asking>, from: nat, replaced: bool) {
    && (forall k | from < k < |requests| :: requests[k - 1].tooLong ==> requests[k].replaced)
    && (from < |requests| && requests[|requests| - 1].tooLong ==> replaced)
  }

  ghost predicate LastAssistant(messages: seq<Message>, a: nat) {
    && a < |messages| && messages[a].Assistant?
    && forall i | a < i < |messages| :: !messages[i].Assistant?
  }

  predicate Asks(call: ToolCall, id: string) { call.id == id && call.name == "ask_user" }

  /** The last assistant message asked the question, and its result is the only
      one missing. */
  ghost predicate Awaits(messages: seq<Message>, id: string) {
    && Owed(messages) == Some(multiset{id})
    && (exists a: nat ::
          && LastAssistant(messages, a)
          && exists k | 0 <= k < |messages[a].calls| :: Asks(messages[a].calls[k], id))
  }

  lemma AskedMore(requests: seq<Asking>, messages: seq<Message>, more: seq<Message>)
    requires Asked(requests, messages)
    ensures Asked(requests, messages + more)
  {
    hide WellPaired, SoundFor;
  }

  lemma AskedNow(requests: seq<Asking>, messages: seq<Message>, next: Asking)
    requires Asked(requests, messages) && WellPaired(messages) && SoundFor(next.context, messages)
    requires next.messages == messages && Current(requests, next.context, next.replaced)
    ensures Asked(requests + [next], messages)
  {
    hide WellPaired, SoundFor, SameShown, Left;
  }

  /** That the last request was answered concerns only those after it. */
  lemma AnsweredNow(requests: seq<Asking>, messages: seq<Message>)
    requires Asked(requests, messages) && requests != []
    ensures var n := |requests| - 1;
            Asked(requests[n := requests[n].(answered := true)], messages)
  {
    hide WellPaired, SoundFor, SameShown;
  }

  lemma TooLongNow(requests: seq<Asking>, messages: seq<Message>)
    requires Asked(requests, messages) && requests != []
    ensures var n := |requests| - 1;
            Asked(requests[n := requests[n].(tooLong := true)], messages)
  {
    hide WellPaired, SoundFor, SameShown;
  }

  /** Between two requests: nothing is owed, the context fits the transcript,
      and what was saved can be loaded again. */
  ghost predicate Ready(agent: Agent)
    reads agent`messages, agent`requests, agent`context, agent`replaced, agent`saved, agent`replaced
  {
    && WellPaired(agent.messages) && Asked(agent.requests, agent.messages)
    && Current(agent.requests, agent.context, agent.replaced)
    && SoundFor(agent.context, agent.messages) && SoundFor(agent.saved.0, agent.saved.1)
  }

  /** Every result that a request of a turn shows stands behind the call it
      belongs to, with nothing but results between them. */
  lemma NoResultWithoutItsCall(requests: seq<Asking>, messages: seq<Message>, g: Projection.Given, r: nat, n: nat)
    returns (m: nat)
    requires Asked(requests, messages) && r < |requests|
    requires requests[r].context.from <= |requests[r].messages|
    requires n < |Projection.Projected(requests[r].context, g, requests[r].messages)|
    requires var shown := Projection.Projected(requests[r].context, g, requests[r].messages);
             shown[n].Source? && shown[n].message.Tool?
    ensures var shown := Projection.Projected(requests[r].context, g, requests[r].messages);
            && m < n && shown[m].Source? && shown[m].message.Assistant?
            && shown[n].message.id in Ids(shown[m].message.calls)
            && forall x | m < x <= n :: shown[x].Source? && shown[x].message.Tool?
  {
    hide Owed, Projection.Projected;
    m := ShownWithItsCall(requests[r].context, g, requests[r].messages, n);
  }

  // ----- How the requests of a turn grow

  ghost function RequestOf(a: Asking, g: Projection.Given): seq<Projection.Sent>
    requires a.context.from <= |a.messages|
  {
    Projection.Request(a.context, g, a.messages, a.state)
  }

  /** What a request sends stays sent: it was answered or carries no state of its
      own, and it carries no note. */
  ghost predicate Stays(a: Asking, g: Projection.Given)
    requires a.context.from <= |a.messages|
  {
    (a.answered || a.state == None) && Projection.Fixed(a.context, g, a.messages, a.state)
  }

  lemma SoundIsValid(c: Projection.Context, messages: seq<Message>)
    requires SoundFor(c, messages)
    ensures Projection.Valid(c, messages)
  {
  }

  lemma NextRequestExtends(a: Asking, b: Asking, g: Projection.Given)
    requires SoundFor(a.context, a.messages) && SoundFor(b.context, b.messages) && a.messages <= b.messages
    requires SameShown(b.context, Left(a)) && a.context.from <= |a.messages| && Stays(a, g)
    ensures b.context.from <= |b.messages| && RequestOf(a, g) <= RequestOf(b, g)
  {
    hide SoundFor, Projection.Projected, Projection.Fixed, Projection.Valid;
    SoundIsValid(a.context, a.messages);
    SoundIsValid(b.context, b.messages);
    var more := b.messages[|a.messages|..];
    assert b.messages == a.messages + more;
    assert b.context.from <= |b.messages| by {
      FromIsInside(b.context, b.messages);
    }
    Projection.RequestExtends(a.context, g, a.messages, a.state, more);
    assert Projection.Accepted(a.context, a.messages, a.state) == Left(a);
    hide Projection.Accepted, Left;
    Projection.SameProjection(b.context, Left(a), g, b.messages);
  }

  lemma FromIsInside(c: Projection.Context, messages: seq<Message>)
    requires Projection.Valid(c, messages)
    ensures c.from <= |messages|
  {
  }

  /** Between two replacements of the context, the requests of a turn whose
      sending stays each begin with all the earlier ones. */
  lemma {:induction false} TurnRequestsGrow(
    requests: seq<Asking>, messages: seq<Message>, g: Projection.Given, lo: nat, hi: nat
  )
    requires Asked(requests, messages) && lo <= hi < |requests|
    requires forall k | lo < k <= hi :: !requests[k].replaced
    requires forall k | lo <= k <= hi :: requests[k].context.from <= |requests[k].messages|
    requires forall k | lo <= k < hi :: Stays(requests[k], g)
    ensures forall i | lo <= i <= hi :: RequestOf(requests[i], g) <= RequestOf(requests[hi], g)
    decreases hi
  {
    hide WellPaired, SoundFor, SameShown, Stays, RequestOf;
    if lo < hi {
      TurnRequestsGrow(requests, messages, g, lo, hi - 1);
      NextRequestExtends(requests[hi - 1], requests[hi], g);
    }
  }

  lemma CallsAreOwed(messages: seq<Message>, calls: seq<ToolCall>)
    requires WellPaired(messages)
    ensures Owed(messages + [Assistant(calls)]) == Some(multiset(Ids(calls)))
  {
    OwedStep(messages, Assistant(calls));
  }

  /** Results for all the calls leave nothing owed. */
  lemma AllPaid(messages: seq<Message>, calls: seq<ToolCall>, outcomes: seq<Outcome>)
    requires WellPaired(messages) && |calls| == |outcomes|
    ensures WellPaired(messages + [Assistant(calls)] + Results(calls, outcomes))
  {
    hide Owed;
    CallsAreOwed(messages, calls);
    assert multiset(Ids(calls)) + multiset{} == multiset(Ids(calls));
    ResultsPay(messages + [Assistant(calls)], calls, outcomes, multiset{});
  }

  lemma OneLeft(calls: seq<ToolCall>, gap: nat)
    requires gap < |calls|
    ensures multiset(Ids(calls)) == multiset(Ids(Without(calls, gap))) + multiset{calls[gap].id}
  {
    assert Ids(calls) == Ids(calls[..gap]) + [calls[gap].id] + Ids(calls[gap + 1..]);
    assert Ids(Without(calls, gap)) == Ids(calls[..gap]) + Ids(calls[gap + 1..]);
  }

  /** Results for all the calls but a question leave exactly that one owed. */
  lemma QuestionLeft(messages: seq<Message>, calls: seq<ToolCall>, gap: nat, outcomes: seq<Outcome>)
    requires WellPaired(messages) && gap < |calls| && calls[gap].name == "ask_user"
    requires |outcomes| == |Without(calls, gap)|
    ensures Awaits(messages + [Assistant(calls)] + Results(Without(calls, gap), outcomes), calls[gap].id)
  {
    hide Owed, Without;
    var asked := messages + [Assistant(calls)];
    CallsAreOwed(messages, calls);
    OneLeft(calls, gap);
    ResultsPay(asked, Without(calls, gap), outcomes, multiset{calls[gap].id});
    var all := asked + Results(Without(calls, gap), outcomes);
    assert all[|messages|] == Assistant(calls);
    assert Asks(calls[gap], calls[gap].id);
    assert LastAssistant(all, |messages|);
  }

  // ----- Taking in what the user submitted

  /** Nothing but messages of the user was added. */
  ghost predicate OnlyHeard(before: seq<Message>, after: seq<Message>) {
    before <= after && forall k | |before| <= k < |after| :: after[k].User?
  }

  /** What the interface does to the inbox while the turn waits. */
  method Meanwhile(inbox: Inbox.Entries)
    modifies inbox
  {
    var submitted: seq<Option<Inbox.Prompt>> := *;
    for k := 0 to |submitted| {
      if submitted[k].Some? {
        var _ := inbox.Push(submitted[k].value);
      } else {
        var _ := inbox.Record();
      }
    }
  }

  /** Moves the deliverable messages from the inbox to the transcript, or
      leaves both as they were. */
  method AcceptInput(agent: Agent) returns (ok: bool, accepted: bool)
    requires SoundFor(agent.context, agent.messages)
    modifies agent`messages, agent`saved, agent`course, agent.inbox
    ensures SoundFor(agent.context, agent.messages)
    ensures agent.saved == old(agent.saved) || agent.saved == (agent.context, agent.messages)
    ensures accepted ==> ok
    ensures Passed(old(agent.Here()), agent.Here())
    ensures ok <==> agent.course.failures == old(agent.course).failures
    ensures var taken := Inbox.Prompts(Inbox.Chosen(old(agent.inbox.View())));
            || (agent.messages == old(agent.messages) && agent.inbox.View() == old(agent.inbox.View()) && !accepted
                && (ok ==> taken == []))
            || (agent.messages == old(agent.messages) + Users(taken) && taken != [] && accepted == ok
                && agent.inbox.View() == Inbox.After(old(agent.inbox.View()), Inbox.Step.Accept(true)))
  {
    var prompts, queued := agent.inbox.Selected();
    if prompts == [] {
      return true, false;
    }
    var cancelled := agent.Cancelled();
    if cancelled {
      return false, false;
    }
    hide SoundFor, WellPaired, Inside;
    var before := |agent.messages|;
    SoundValidates(agent.context, agent.messages);
    ValidatesStays(agent.context, agent.messages, Users(prompts));
    agent.messages := agent.messages + Users(prompts);
    var saved := agent.Checkpoint();
    if !saved {
      agent.messages := agent.messages[..before];
      return false, false;
    }
    agent.inbox.Commit();
    ok := agent.Emit(Other);
    if ok {
      ok := agent.Emit(Other);
    }
    accepted := ok;
  }

  /** As `AcceptInput`, between two requests. */
  method TakeInput(agent: Agent) returns (ok: bool, accepted: bool)
    requires Ready(agent)
    modifies agent`messages, agent`saved, agent`course, agent.inbox
    ensures Ready(agent) && OnlyHeard(old(agent.messages), agent.messages)
    ensures ok && !accepted ==> agent.messages == old(agent.messages)
    ensures Passed(old(agent.Here()), agent.Here())
    ensures ok <==> agent.course.failures == old(agent.course).failures
  {
    hide WellPaired, Asked, SoundFor;
    Meanwhile(agent.inbox);
    ghost var taken := Inbox.Prompts(Inbox.Chosen(agent.inbox.View()));
    ok, accepted := AcceptInput(agent);
    UsersKeepPairing(old(agent.messages), Users(taken));
    AskedMore(agent.requests, old(agent.messages), Users(taken));
  }

  // ----- Compaction

  /** Installs a new context, and takes it back when it cannot be saved. */
  method Install(agent: Agent, next: Projection.Context) returns (ok: bool)
    requires Ready(agent) && SoundFor(next, agent.messages)
    modifies agent`context, agent`replaced, agent`saved, agent`course
    ensures Ready(agent) && agent.context == (if ok then next else old(agent.context))
    ensures agent.replaced == (old(agent.replaced) || ok)
    ensures agent.saved == if ok then (next, agent.messages) else old(agent.saved)
    ensures agent.course == Counted(old(agent.course), ok)
  {
    hide WellPaired, Asked, SoundFor;
    var previous := agent.context;
    agent.context := next;
    ok := agent.Checkpoint();
    if ok {
      agent.replaced := true;
    } else {
      agent.context := previous;
    }
  }

  /** What each message of the transcript counts at this moment. */
  method Weigh(messages: seq<Message>) returns (weights: seq<Weight>)
    ensures |weights| == |messages|
  {
    weights := [];
    for k := 0 to |messages|
      invariant |weights| == k
    {
      var weight: Weight := *;
      weights := weights + [weight];
    }
  }

  /** The contexts a compaction may leave: the one before, the one before with
      previews, or one whose summary ends where the recent part begins. */
  ghost predicate Compacted(
    before: Projection.Context, after: Projection.Context, messages: seq<Message>, budget: nat
  ) {
    || after == before
    || after == Previewed(before, messages, budget)
    || exists end: nat, summary: string, calibration: Option<Calibration>, weights: seq<Weight> ::
         && |weights| == |messages| && TrimsToSomething(summary)
         && EndsSummary(before, messages, calibration, weights, budget / 4, end)
         && after == Summarized(before, end, budget, summary)
  }

  lemma SummaryCompacts(
    before: Projection.Context, messages: seq<Message>, budget: nat, end: nat, summary: string,
    calibration: Option<Calibration>, weights: seq<Weight>
  )
    requires |weights| == |messages| && TrimsToSomething(summary)
    requires EndsSummary(before, messages, calibration, weights, budget / 4, end)
    ensures Compacted(before, Summarized(before, end, budget, summary), messages, budget)
    ensures Compacted(before, before, messages, budget)
  {
    hide EndsSummary, TrimsToSomething;
  }

  predicate TrimsToSomething(summary: string) { Strings.TrimStart(summary) != [] }

  /** Whether the request is over the budget, and whether it fits with previews. */
  datatype Sizes = Sizes(over: bool, previewsSuffice: bool)

  /** Shrinks the request when it reaches the budget: first by previews, then by
      a summary of everything before the recent part. Only the context changes,
      and only to one that was saved. */
  method CompactIfNeeded(agent: Agent, forced: bool)
    returns (ok: bool, reduced: bool, ghost budget: nat, ghost sizes: Sizes)
    requires Ready(agent)
    modifies agent`context, agent`replaced, agent`saved, agent`course, agent`sized
    ensures Ready(agent) && Compacted(old(agent.context), agent.context, agent.messages, budget)
    ensures agent.context != old(agent.context) ==> agent.saved == (agent.context, agent.messages)
    ensures reduced ==> ok && agent.replaced && (forced || agent.context.from > old(agent.context).from)
    ensures ok && agent.context != old(agent.context) ==>
              (reduced <==> forced || agent.context.from > old(agent.context).from)
    ensures agent.sized == agent.messages
    ensures old(agent.replaced) ==> agent.replaced
    ensures Passed(old(agent.Here()), agent.Here())
    ensures ok <==> agent.course.failures == old(agent.course).failures
    ensures ok ==>
              if !forced && !sizes.over then agent.context == old(agent.context)
              else if sizes.previewsSuffice then agent.context == Previewed(old(agent.context), agent.messages, budget)
              else if old(agent.context).from >= |agent.messages| then agent.context == old(agent.context)
              else agent.context.from > old(agent.context).from
  {
    hide WellPaired, Asked, SoundFor, EndsSummary, TrimsToSomething;
    var context, messages := agent.context, agent.messages;
    agent.sized := messages;
    var inputBudget: nat := *;
    budget := inputBudget;
    ok, reduced := true, false;
    var over: bool, previewsSuffice: bool := *, *;
    sizes := Sizes(over, previewsSuffice);
    if !forced && !over {
      return;
    }
    if previewsSuffice {
      SoundValidates(context, messages);
      PreviewedValidates(context, messages, inputBudget);
      ok := Install(agent, Previewed(context, messages, inputBudget));
      if ok {
        ok := agent.Emit(Other);
      }
      reduced := ok && forced;
      return;
    }
    if context.from >= |messages| {
      return;
    }
    ok, reduced := Summarize(agent, inputBudget);
  }

  /** Replaces what comes before the recent part by a summary, when one that is
      small enough can be made, and saved. */
  method Summarize(agent: Agent, inputBudget: nat) returns (ok: bool, reduced: bool)
    requires Ready(agent) && agent.context.from < |agent.messages|
    modifies agent`context, agent`replaced, agent`saved, agent`course
    ensures Ready(agent) && Compacted(old(agent.context), agent.context, agent.messages, inputBudget)
    ensures agent.context != old(agent.context) ==> agent.saved == (agent.context, agent.messages)
    ensures reduced ==> ok && agent.replaced && agent.context.from > old(agent.context).from
    ensures ok ==> reduced
    ensures old(agent.replaced) ==> agent.replaced
    ensures Passed(old(agent.Here()), agent.Here())
    ensures ok <==> agent.course.failures == old(agent.course).failures
  {
    hide WellPaired, Asked;
    var context, messages := agent.context, agent.messages;
    assert Compacted(context, context, messages, inputBudget);
    var calibration: Option<Calibration> := *;
    var weights := Weigh(messages);
    assert context.from <= |messages|;
    hide SoundFor;
    var end := RecentBoundary(context, messages, calibration, weights, inputBudget / 4);
    var small: bool := *;
    var summary: string := *;
    if !small || Strings.TrimStart(summary) == [] {
      agent.Stop();
      return false, false;
    }
    SummaryCompacts(context, messages, inputBudget, end, summary, calibration, weights);
    BoundaryIsNoResult(context, messages, calibration, weights, inputBudget / 4, end);
    SoundValidates(context, messages);
    SummarizedValidates(context, messages, end, inputBudget, summary);
    hide Compacted, EndsSummary;
    ok := Install(agent, Summarized(context, end, inputBudget, summary));
    if ok {
      ok := agent.Emit(Other);
    }
    reduced := ok;
  }

  // ----- Asking the model

  /** Counts an answered request, when the provider measured it, and anchors the
      state it sent. */
  method Anchor(agent: Agent, state: Option<string>, measured: bool)
    requires Ready(agent) && agent.requests != []
    requires var last := agent.requests[|agent.requests| - 1];
             last.context == agent.context && last.messages == agent.messages && last.state == state
    modifies agent`context, agent`requests
    ensures Ready(agent)
    ensures var observed := if measured then Observed(old(agent.context), |agent.messages|) else old(agent.context);
            agent.context == Projection.Accepted(observed, agent.messages, state)
    ensures var n := |old(agent.requests)| - 1;
            agent.requests == old(agent.requests)[n := old(agent.requests)[n].(answered := true)]
  {
    hide WellPaired, Asked, SoundFor, Validates;
    ghost var n := |agent.requests| - 1;
    if measured {
      SoundValidates(agent.context, agent.messages);
      ObservedValidates(agent.context, agent.messages);
      agent.context := Observed(agent.context, |agent.messages|);
    }
    SoundValidates(agent.context, agent.messages);
    AcceptedValidates(agent.context, agent.messages, state);
    agent.context := Projection.Accepted(agent.context, agent.messages, state);
    AnsweredNow(agent.requests, agent.messages);
    agent.requests := agent.requests[n := agent.requests[n].(answered := true)];
  }

  lemma SoundValidates(c: Projection.Context, messages: seq<Message>)
    requires SoundFor(c, messages)
    ensures Validates(c, messages)
  {
  }

  /** Everything before a request: input is taken in, the context compacted, and
      input taken in that came meanwhile. */
  method Prepare(agent: Agent) returns (ok: bool, accepted: bool)
    requires Ready(agent)
    modifies agent`messages, agent`context, agent`replaced, agent`saved, agent`course, agent`sized, agent.inbox
    ensures Ready(agent) && OnlyHeard(old(agent.messages), agent.messages)
    ensures old(agent.replaced) ==> agent.replaced
    ensures ok && !accepted ==> agent.sized == agent.messages
    ensures Passed(old(agent.Here()), agent.Here())
    ensures ok <==> agent.course.failures == old(agent.course).failures
  {
    hide Ready;
    ok, accepted := TakeInput(agent);
    if ok {
      ok := agent.Emit(Other);
    }
    if ok {
      var reduced;
      ghost var budget, sizes;
      ok, reduced, budget, sizes := CompactIfNeeded(agent, false);
    }
    if ok {
      ok, accepted := TakeInput(agent);
    }
  }

  /** Asks until the model answers. Every request is recorded with the context
      it was projected from; the state an answered one carried is anchored. */
  method NextCompletion(agent: Agent, script: seq<Attempt>)
    returns (completion: Option<Completion>, rest: seq<Attempt>)
    requires Ready(agent)
    modifies agent`messages, agent`requests, agent`context, agent`replaced,
             agent`saved, agent`course, agent`sized, agent.inbox
    ensures Ready(agent) && Passed(old(agent.Here()), agent.Here())
    ensures completion.Some? <==> agent.course.failures == old(agent.course).failures
    ensures Shrinks(agent.requests, |old(agent.requests)|, true)
    ensures OnlyHeard(old(agent.messages), agent.messages) && old(agent.requests) <= agent.requests
    ensures completion.Some? ==> |rest| < |script| && |agent.requests| > |old(agent.requests)|
    ensures completion.Some? ==> Carries(agent, completion.value)
  {
    hide Ready, Shrinks, Carries;
    ghost var from := |agent.requests|;
    rest := script;
    NothingAskedYet(agent.requests, agent.replaced);
    while rest != []
      invariant Ready(agent) && Shrinks(agent.requests, from, agent.replaced)
      invariant OnlyHeard(old(agent.messages), agent.messages) && old(agent.requests) <= agent.requests
      invariant |rest| <= |script|
      invariant Passed(old(agent.Here()), agent.Here()) && agent.course.failures == old(agent.course).failures
      decreases |rest|
    {
      var attempt := rest[0];
      rest := rest[1..];
      var ok, accepted := Prepare(agent);
      StillShrinks(agent.requests, from, agent.replaced);
      if !ok {
        return None, rest;
      }
      if accepted {
        continue;
      }
      var again;
      completion, again := Ask(agent, attempt, from);
      StillShrinks(agent.requests, from, agent.replaced);
      if !again {
        return;
      }
    }
    agent.Stop();
    StillShrinks(agent.requests, from, agent.replaced);
    completion := None;
  }

  lemma NothingAskedYet(requests: seq<Asking>, replaced: bool)
    ensures Shrinks(requests, |requests|, replaced)
  {
  }

  lemma StillShrinks(requests: seq<Asking>, from: nat, replaced: bool)
    ensures Shrinks(requests, from, replaced) ==> Shrinks(requests, from, true)
    ensures Shrinks(requests, from, false) ==> Shrinks(requests, from, replaced)
  {
  }

  /** The last request was made from the transcript as it is and answered; its
      state is anchored in the context, which counts it when it was measured. */
  ghost predicate Carries(agent: Agent, completion: Completion)
    reads agent`requests, agent`messages, agent`context
  {
    && agent.requests != []
    && var last := agent.requests[|agent.requests| - 1];
       && last.messages == agent.messages && last.answered
       && var observed := if completion.measured then Observed(last.context, |agent.messages|) else last.context;
          agent.context == Projection.Accepted(observed, agent.messages, last.state)
  }

  /** One request, and what becomes of it: an answer, an end of the turn, or
      another try. */
  method Ask(agent: Agent, attempt: Attempt, ghost from: nat) returns (completion: Option<Completion>, again: bool)
    requires Ready(agent) && agent.sized == agent.messages
    requires from <= |agent.requests| && Shrinks(agent.requests, from, agent.replaced)
    modifies agent`requests, agent`context, agent`replaced, agent`saved, agent`course, agent`sized
    ensures Ready(agent) && Passed(old(agent.Here()), agent.Here())
    ensures old(agent.requests) <= agent.requests && Shrinks(agent.requests, from, true)
    ensures again ==> completion == None && Shrinks(agent.requests, from, agent.replaced)
    ensures again || completion.Some? <==> agent.course.failures == old(agent.course).failures
    ensures completion.Some? ==> |agent.requests| > |old(agent.requests)| && Carries(agent, completion.value)
  {
    hide Ready, Shrinks, Compacted;
    completion, again := None, false;
    var environment: PendingState.Environment := *;
    var state := PendingState.Pending(agent.context, environment);
    var ok := agent.Emit(Other);
    StillShrinks(agent.requests, from, agent.replaced);
    if !ok {
      return;
    }
    ghost var before := agent.requests;
    Send(agent, state);
    OneMoreAsked(before, agent.requests, from);
    match attempt
    case Retry =>
      again := true;
      StillShrinks(agent.requests, from, agent.replaced);
    case Failed =>
      agent.Stop();
    case TooLong =>
      again := Reduce(agent, from);
      StillShrinks(agent.requests, from, agent.replaced);
    case Answer(c) =>
      ghost var sent := agent.requests;
      Anchor(agent, state, c.measured);
      WasAnswered(sent, agent.requests, from);
      ok := agent.Emit(Other);
      completion := if ok then Some(c) else None;
  }

  /** The last request was too long: another try, if the context gets smaller. */
  method Reduce(agent: Agent, ghost from: nat) returns (again: bool)
    requires Ready(agent) && from < |agent.requests| && Shrinks(agent.requests, from, false)
    modifies agent`requests, agent`context, agent`replaced, agent`saved, agent`course, agent`sized
    ensures Ready(agent) && Passed(old(agent.Here()), agent.Here())
    ensures |agent.requests| == |old(agent.requests)| && agent.requests[|agent.requests| - 1].tooLong
    ensures old(agent.requests)[..|agent.requests| - 1] == agent.requests[..|agent.requests| - 1]
    ensures Shrinks(agent.requests, from, if again then agent.replaced else true)
    ensures again <==> agent.course.failures == old(agent.course).failures
  {
    hide Ready, Shrinks, Compacted;
    ghost var sent := agent.requests;
    Refuse(agent);
    WasTooLong(sent, agent.requests, from);
    again := agent.Emit(Other);
    if again {
      ghost var budget, sizes;
      var reduced;
      again, reduced, budget, sizes := CompactIfNeeded(agent, true);
      if again && !reduced {
        agent.Stop();
        again := false;
      }
    }
  }

  lemma OneMoreAsked(before: seq<Asking>, after: seq<Asking>, from: nat)
    requires |after| == |before| + 1 && before <= after && from <= |before|
    requires Shrinks(before, from, after[|before|].replaced) && !after[|before|].tooLong
    ensures Shrinks(after, from, false) && Shrinks(after, from, true)
  {
  }

  lemma WasTooLong(before: seq<Asking>, after: seq<Asking>, from: nat)
    requires before != [] && Shrinks(before, from, false)
    requires var n := |before| - 1; after == before[n := before[n].(tooLong := true)]
    ensures Shrinks(after, from, true)
  {
  }

  lemma WasAnswered(before: seq<Asking>, after: seq<Asking>, from: nat)
    requires before != [] && Shrinks(before, from, false)
    requires var n := |before| - 1; after == before[n := before[n].(answered := true)]
    ensures Shrinks(after, from, true)
  {
  }

  /** The request that went out last was too long. */
  method Refuse(agent: Agent)
    requires Ready(agent) && agent.requests != []
    modifies agent`requests
    ensures Ready(agent)
    ensures var n := |old(agent.requests)| - 1;
            agent.requests == old(agent.requests)[n := old(agent.requests)[n].(tooLong := true)]
  {
    hide WellPaired, SoundFor;
    ghost var n := |agent.requests| - 1;
    TooLongNow(agent.requests, agent.messages);
    hide Asked;
    agent.requests := agent.requests[n := agent.requests[n].(tooLong := true)];
  }

  /** A request goes out, its transcript compared with the budget. */
  method Send(agent: Agent, state: Option<string>)
    requires Ready(agent) && agent.sized == agent.messages
    modifies agent`requests, agent`replaced
    ensures Ready(agent)
    ensures agent.requests ==
            old(agent.requests) + [Asking(agent.context, agent.messages, state, false, false, old(agent.replaced))]
  {
    hide WellPaired, Asked, SoundFor;
    ghost var next := Asking(agent.context, agent.messages, state, false, false, agent.replaced);
    AskedNow(agent.requests, agent.messages, next);
    agent.requests, agent.replaced := agent.requests + [next], false;
  }

  // ----- Withdrawing input

  /** The context before a prompt was submitted, and where its turn began. */
  datatype TurnInput = TurnInput(from: nat, context: Projection.Context)

  ghost predicate Remembers(input: TurnInput, messages: seq<Message>) {
    input.from <= |messages| && SoundFor(input.context, messages[..input.from])
  }

  method InputCheckpoint(agent: Agent) returns (input: TurnInput)
    requires SoundFor(agent.context, agent.messages)
    ensures input == TurnInput(|agent.messages|, agent.context) && Remembers(input, agent.messages)
  {
    input := TurnInput(|agent.messages|, agent.context);
    assert agent.messages[..|agent.messages|] == agent.messages;
  }

  /** Withdraws input that nothing was answered to: every message since then is
      one of the user's. */
  method ReturnInput(agent: Agent, input: TurnInput) returns (returned: bool)
    requires Ready(agent) && Remembers(input, agent.messages)
    modifies agent`context, agent`replaced
    ensures Ready(agent)
    ensures returned <==>
            input.from < |agent.messages| && forall k | input.from <= k < |agent.messages| :: agent.messages[k].User?
    ensures agent.context ==
            if returned then Withdrawn(input.context, input.from, |agent.messages|) else old(agent.context)
  {
    hide WellPaired, Asked, SoundFor, Withdrawn;
    var end := |agent.messages|;
    if input.from >= end || exists k | input.from <= k < end :: !agent.messages[k].User? {
      return false;
    }
    SoundValidates(input.context, agent.messages[..input.from]);
    WithdrawnValidates(input.context, agent.messages, input.from);
    agent.context := Withdrawn(input.context, input.from, end);
    agent.replaced := true;
    returned := true;
  }

  /** Whatever the turn left: nothing owed, or one saved question. */
  ghost predicate Settled(agent: Agent)
    reads agent
  {
    && agent.chain == None && agent.Lawful() && Asked(agent.requests, agent.messages)
    && Current(agent.requests, agent.context, agent.replaced) && SoundFor(agent.saved.0, agent.saved.1)
    && (!agent.suspended ==> agent.Idle() && Ready(agent))
    && (agent.suspended ==>
          agent.question.Some? && Awaits(agent.messages, agent.question.value) && Inside(agent.context, agent.messages))
  }

  /** Records an answer, as the one the provider counted if it did. */
  method Record(agent: Agent, completion: Completion)
    requires Ready(agent)
    modifies agent`messages, agent`context
    ensures agent.messages == old(agent.messages) + [Assistant(completion.calls)]
    ensures Inside(agent.context, agent.messages) && Current(agent.requests, agent.context, agent.replaced)
    ensures agent.context ==
            if completion.measured then old(agent.context).(output := Some(|old(agent.messages)|))
            else old(agent.context)
  {
    hide WellPaired, Asked, SoundFor, Inside, Left;
    SoundValidates(agent.context, agent.messages);
    ValidatesStays(agent.context, agent.messages, [Assistant(completion.calls)]);
    if completion.measured {
      OutputValidates(agent.context, agent.messages, Assistant(completion.calls));
      agent.context := agent.context.(output := Some(|agent.messages|));
    }
    agent.messages := agent.messages + [Assistant(completion.calls)];
  }

  /** Records an answer and gives each of its calls a result. */
  method Handle(agent: Agent, completion: Completion) returns (ok: bool)
    requires Settled(agent) && !agent.suspended
    modifies agent`messages, agent`chain, agent`question, agent`suspended,
             agent`launched, agent`log, agent`saved, agent`course,
             agent`context
    ensures Settled(agent) && (ok ==> !agent.suspended)
    ensures old(agent.messages) + [Assistant(completion.calls)] <= agent.messages
    ensures ok ==> Done(old(agent.messages), agent.messages, completion.calls, old(agent.Here()), agent.Here())
    ensures Passed(old(agent.Here()), agent.Here())
    ensures ok || agent.suspended <==> agent.course.failures == old(agent.course).failures
    ensures ok && completion.calls != [] ==> agent.Kept()
  {
    hide WellPaired, Awaits, Asked, Without, Follows, Results, Ids, SoundFor, Inside, Vetted, Current, ToldAll, Done;
    var calls := completion.calls;
    ghost var before := agent.messages;
    Record(agent, completion);
    ghost var start := agent.Now();
    var shown := Present(agent, completion);
    ghost var there := agent.Here();
    ghost var outcomes, gap;
    ok, outcomes, gap := RunCalls(agent, calls, shown);
    InsideIsSound(agent.context, agent.messages);
    if agent.suspended {
      GapLeft(agent.requests, before, start, agent.Now(), calls, gap, outcomes);
    } else {
      NoneLeft(agent.requests, before, start, agent.Now(), calls, outcomes);
      if ok {
        Same(agent.Here());
        ToldAllWider(old(agent.Here()), there, agent.Here(), agent.Here(), calls, outcomes);
        AllDone(before, start, agent.Now(), calls, outcomes, old(agent.Here()), agent.Here());
      }
    }
  }

  /** Saves an answer and shows it, unless it could not be used. */
  method Present(agent: Agent, completion: Completion) returns (ok: bool)
    requires agent.Sealed()
    modifies agent`saved, agent`course
    ensures agent.Sealed() && Passed(old(agent.Here()), agent.Here())
    ensures ok <==> agent.course.failures == old(agent.course).failures
    ensures ok ==> !completion.postprocessError && agent.Kept()
  {
    hide SoundFor, Inside;
    ok := agent.Save();
    if ok {
      ok := agent.Emit(Other);
    }
    if ok && completion.postprocessError {
      agent.Stop();
      ok := false;
    }
  }

  /** Runs the calls of an answer, or cancels them all. */
  method RunCalls(agent: Agent, calls: seq<ToolCall>, go: bool)
    returns (ok: bool, ghost outcomes: seq<Outcome>, ghost gap: nat)
    requires agent.Sealed() && agent.Lawful() && agent.Idle() && agent.chain == None
    modifies agent`messages, agent`chain, agent`question, agent`suspended, agent`launched, agent`log,
             agent`saved, agent`course
    ensures agent.Sealed() && agent.Lawful() && agent.chain == None
    ensures !agent.suspended ==> agent.Idle() && Follows(old(agent.Now()), agent.Now(), calls, outcomes)
    ensures agent.suspended ==>
              && go && gap < |calls| && calls[gap].name == "ask_user" && agent.question == Some(calls[gap].id)
              && Follows(old(agent.Now()), agent.Now(), Without(calls, gap), outcomes)
    ensures Passed(old(agent.Here()), agent.Here()) && (ok ==> go && !agent.suspended)
    ensures go ==> (ok || agent.suspended <==> agent.course.failures == old(agent.course).failures)
    ensures !go ==> agent.course == old(agent.course)
    ensures ok ==> Executed(outcomes) && ToldAll(old(agent.Here()), agent.Here(), calls, outcomes)
    ensures ok && calls != [] ==> agent.Kept()
  {
    hide SoundFor, Inside, Follows, Vetted, ToldAll, Ended, Without;
    gap := 0;
    if go {
      ok, outcomes, gap := agent.ExecuteCalls(calls);
    } else {
      agent.CancelCalls(calls);
      ok, outcomes := false, AllNotExecuted(|calls|);
    }
  }

  /** The answer was recorded with a result for each of its calls: each was
      executed, and says what happened. */
  ghost predicate Done(before: seq<Message>, after: seq<Message>, calls: seq<ToolCall>, a: Point, b: Point) {
    exists outcomes | |outcomes| == |calls| ::
      && after == before + [Assistant(calls)] + Results(calls, outcomes)
      && Executed(outcomes) && ToldAll(a, b, calls, outcomes)
  }

  lemma AllDone(
    before: seq<Message>, start: Trace, end: Trace, calls: seq<ToolCall>, outcomes: seq<Outcome>, a: Point, b: Point
  )
    requires start.messages == before + [Assistant(calls)] && start.chain == None
    requires Follows(start, end, calls, outcomes) && Executed(outcomes) && ToldAll(a, b, calls, outcomes)
    ensures Done(before, end.messages, calls, a, b)
  {
    hide LaunchedAll, Told;
  }

  /** Every result recorded since says that its call was executed. */
  ghost predicate NothingSkipped(before: nat, messages: seq<Message>) {
    forall k | before <= k < |messages| && messages[k].Tool? :: messages[k].outcome != NotExecuted
  }

  lemma NothingYet(messages: seq<Message>)
    ensures NothingSkipped(|messages|, messages)
  {
  }

  lemma HeardSkipsNothing(from: nat, before: seq<Message>, after: seq<Message>)
    requires NothingSkipped(from, before) && OnlyHeard(before, after)
    ensures NothingSkipped(from, after)
  {
  }

  lemma DoneSkipsNothing(
    from: nat, before: seq<Message>, after: seq<Message>, calls: seq<ToolCall>, a: Point, b: Point
  )
    requires NothingSkipped(from, before) && Done(before, after, calls, a, b)
    ensures NothingSkipped(from, after)
    ensures calls == [] ==> after == before + [Assistant([])]
  {
    hide ToldAll;
    var outcomes :| |outcomes| == |calls| && after == before + [Assistant(calls)] + Results(calls, outcomes)
      && Executed(outcomes);
    if calls == [] {
      assert Results(calls, outcomes) == [];
    }
  }

  lemma NoneLeft(
    requests: seq<Asking>, before: seq<Message>, start: Trace, end: Trace,
    calls: seq<ToolCall>, outcomes: seq<Outcome>
  )
    requires WellPaired(before) && Asked(requests, before)
    requires start.messages == before + [Assistant(calls)] && start.chain == None
    requires Follows(start, end, calls, outcomes)
    ensures WellPaired(end.messages) && Asked(requests, end.messages)
    ensures before + [Assistant(calls)] <= end.messages
  {
    hide WellPaired, Asked, LaunchedAll;
    AllPaid(before, calls, outcomes);
    AskedMore(requests, before, [Assistant(calls)] + Results(calls, outcomes));
    assert before + ([Assistant(calls)] + Results(calls, outcomes)) == end.messages;
  }

  lemma GapLeft(
    requests: seq<Asking>, before: seq<Message>, start: Trace, end: Trace,
    calls: seq<ToolCall>, gap: nat, outcomes: seq<Outcome>
  )
    requires WellPaired(before) && Asked(requests, before)
    requires start.messages == before + [Assistant(calls)] && start.chain == None
    requires gap < |calls| && calls[gap].name == "ask_user"
    requires Follows(start, end, Without(calls, gap), outcomes)
    ensures Awaits(end.messages, calls[gap].id) && Asked(requests, end.messages)
    ensures before + [Assistant(calls)] <= end.messages
  {
    hide WellPaired, Asked, LaunchedAll, Awaits, Without;
    QuestionLeft(before, calls, gap, outcomes);
    AskedMore(requests, before, [Assistant(calls)] + Results(Without(calls, gap), outcomes));
    assert before + ([Assistant(calls)] + Results(Without(calls, gap), outcomes)) == end.messages;
  }

  /** One answer and what it calls for; the turn is done with an answer without
      calls, unless there is news. */
  method Pass(agent: Agent, script: seq<Attempt>, ghost from: nat)
    returns (ok: bool, done: bool, rest: seq<Attempt>)
    requires Settled(agent) && !agent.suspended && NothingSkipped(from, agent.messages)
    modifies agent, agent.inbox
    ensures Settled(agent) && (ok ==> !agent.suspended)
    ensures old(agent.messages) <= agent.messages && old(agent.requests) <= agent.requests
    ensures Passed(old(agent.Here()), agent.Here())
    ensures ok || agent.suspended <==> agent.course.failures == old(agent.course).failures
    ensures ok ==> |rest| < |script| && |agent.requests| > |old(agent.requests)|
    ensures ok ==> NothingSkipped(from, agent.messages)
    ensures ok && done ==> agent.messages != [] && agent.messages[|agent.messages| - 1] == Assistant([])
  {
    hide WellPaired, Awaits, Asked, SoundFor, Inside, Vetted, Current, Done, NothingSkipped, Shrinks, Carries;
    ok, done, rest := false, false, script;
    ghost var heard := agent.messages;
    var cancelled := agent.Cancelled();
    if cancelled {
      return;
    }
    var completion;
    completion, rest := NextCompletion(agent, rest);
    if completion.None? {
      return;
    }
    HeardSkipsNothing(from, heard, agent.messages);
    ghost var before, here := agent.messages, agent.Here();
    ok := Handle(agent, completion.value);
    if !ok {
      return;
    }
    DoneSkipsNothing(from, before, agent.messages, completion.value.calls, here, agent.Here());
    if completion.value.calls == [] {
      heard := agent.messages;
      var accepted;
      ok, accepted := TakeInput(agent);
      HeardSkipsNothing(from, heard, agent.messages);
      var more: bool := *;
      done := !accepted && !more;
    }
  }

  /** Every request of the turn sees a transcript with all calls answered, and
      wherever the turn stops it leaves at most one saved question open. A turn
      that succeeds ends in an answer without calls, and executed every call of
      the answers before. */
  method DriveTurn(agent: Agent, script: seq<Attempt>) returns (ok: bool)
    requires Settled(agent) && !agent.suspended
    modifies agent, agent.inbox
    ensures Settled(agent) && (ok ==> !agent.suspended)
    ensures old(agent.messages) <= agent.messages && old(agent.requests) <= agent.requests
    ensures ok ==> agent.messages != [] && agent.messages[|agent.messages| - 1] == Assistant([])
    ensures ok ==> NothingSkipped(|old(agent.messages)|, agent.messages)
    ensures ok ==> |agent.requests| > |old(agent.requests)|
    ensures Passed(old(agent.Here()), agent.Here())
    ensures ok || agent.suspended <==> agent.course.failures == old(agent.course).failures
  {
    hide Settled, NothingSkipped;
    ghost var from := |agent.messages|;
    NothingYet(agent.messages);
    var rest := script;
    ok := Open(agent);
    var done := false;
    while ok && !done
      invariant Settled(agent) && (ok ==> !agent.suspended)
      invariant old(agent.messages) <= agent.messages && old(agent.requests) <= agent.requests
      invariant ok ==> NothingSkipped(from, agent.messages)
      invariant ok && done ==> agent.messages != [] && agent.messages[|agent.messages| - 1] == Assistant([])
      invariant ok && done ==> |agent.requests| > |old(agent.requests)|
      invariant Passed(old(agent.Here()), agent.Here())
      invariant ok || agent.suspended <==> agent.course.failures == old(agent.course).failures
      decreases if ok && !done then |rest| + 1 else 0
    {
      ok, done, rest := Pass(agent, rest, from);
    }
  }

  /** What a turn shows before its first request. */
  method Open(agent: Agent) returns (ok: bool)
    requires Settled(agent)
    modifies agent`course
    ensures Settled(agent) && agent.course == Emitted(old(agent.course), Other, ok)
  {
    hide WellPaired, Awaits, Asked, SoundFor, Inside, Vetted, Current;
    ok := agent.Emit(Other);
  }

  // ----- Answering a saved question

  /** Looks back for the call that asked a saved question. */
  method PendingCall(messages: seq<Message>, id: string) returns (call: Option<ToolCall>)
    ensures forall a: nat | LastAssistant(messages, a) ::
              (call.Some? ==> call.value in messages[a].calls && Asks(call.value, id))
              && (call.None? ==> forall k | 0 <= k < |messages[a].calls| :: !Asks(messages[a].calls[k], id))
    ensures call.Some? ==> exists a: nat :: LastAssistant(messages, a)
  {
    var at := |messages|;
    while at > 0
      invariant 0 <= at <= |messages| && forall i | at <= i < |messages| :: !messages[i].Assistant?
    {
      at := at - 1;
      if messages[at].Assistant? {
        assert LastAssistant(messages, at);
        var calls := messages[at].calls;
        for k := 0 to |calls|
          invariant forall i | 0 <= i < k :: !Asks(calls[i], id)
        {
          if Asks(calls[k], id) {
            return Some(calls[k]);
          }
        }
        return None;
      }
    }
    call := None;
  }

  /** One answer settles a saved question. */
  lemma AnswerSettles(messages: seq<Message>, id: string, outcome: Outcome)
    requires Awaits(messages, id)
    ensures WellPaired(messages + [Tool(id, outcome)])
  {
    hide Owed;
    OwedStep(messages, Tool(id, outcome));
    assert multiset{id} - multiset{id} == multiset{};
  }

  /** Records the one result of a saved question. */
  method GiveAnswer(agent: Agent, call: ToolCall) returns (ok: bool)
    requires agent.chain == None && Asked(agent.requests, agent.messages)
    requires Awaits(agent.messages, call.id) && agent.Sealed()
    requires Current(agent.requests, agent.context, agent.replaced)
    modifies agent`messages, agent`chain, agent`question, agent`saved, agent`course
    ensures Ready(agent) && agent.chain == None && agent.question == None
    ensures agent.messages == old(agent.messages) + [Tool(call.id, Answered)]
    ensures Passed(old(agent.Here()), agent.Here()) && (ok ==> agent.Kept())
    ensures ok <==> agent.course.failures == old(agent.course).failures
  {
    hide WellPaired, Awaits, Asked, SoundFor, Inside;
    ghost var before := agent.messages;
    agent.ToolResult(call, Answered);
    agent.question := None;
    assert agent.messages == before + [Tool(call.id, Answered)];
    AskedMore(agent.requests, before, [Tool(call.id, Answered)]);
    AnswerSettles(before, call.id, Answered);
    InsideIsSound(agent.context, agent.messages);
    ok := agent.Checkpoint();
    if ok {
      ok := agent.Emit(Other);
    }
    if ok {
      var cancelled := agent.Cancelled();
      ok := !cancelled;
    }
  }

  /** Gives a saved question its one result and goes on with the turn; left
      again unanswered, the question stays exactly as it was. */
  method ContinueQuestion(agent: Agent, script: seq<Attempt>) returns (ok: bool, resumed: bool)
    requires agent.chain == None && agent.Lawful() && Asked(agent.requests, agent.messages)
    requires agent.question.Some? ==>
               Awaits(agent.messages, agent.question.value) && Inside(agent.context, agent.messages)
    requires agent.question.None? ==> Ready(agent)
    requires !agent.suspended && SoundFor(agent.saved.0, agent.saved.1)
    requires Current(agent.requests, agent.context, agent.replaced)
    modifies agent, agent.inbox
    ensures Asked(agent.requests, agent.messages) && old(agent.requests) <= agent.requests
    ensures agent.Lawful() && SoundFor(agent.saved.0, agent.saved.1) && SoundFor(agent.context, agent.messages)
    ensures old(agent.question).None? ==> !resumed && ok && agent.messages == old(agent.messages)
    ensures old(agent.question).Some? ==>
              || (agent.messages == old(agent.messages) && agent.question == old(agent.question))
              || (Settled(agent) && old(agent.messages) + [Tool(old(agent.question).value, Answered)] <= agent.messages)
    ensures resumed <==> old(agent.question).Some?
    ensures ok && resumed ==> agent.Kept()
    ensures ok && resumed && !agent.suspended ==>
              agent.messages != [] && agent.messages[|agent.messages| - 1] == Assistant([])
    ensures agent.course.failures == old(agent.course).failures ==> ok || agent.suspended
    ensures ok ==> agent.course.failures == old(agent.course).failures
  {
    hide WellPaired, Awaits, Asked, SoundFor, Inside, Vetted;
    if agent.question.None? {
      return true, false;
    }
    resumed := true;
    var id := agent.question.value;
    ghost var before := agent.messages;
    InsideIsSound(agent.context, agent.messages);
    var call := PendingCall(agent.messages, id);
    if call.None? {
      agent.Stop();
      return false, resumed;
    }
    var saved: bool := *;
    if !saved {
      ok := agent.Emit(Other);
      if !ok {
        return;
      }
      agent.suspended := *;
    }
    if agent.suspended {
      ok := agent.Checkpoint();
      return;
    }
    ok := GoOn(agent, call.value, script);
  }

  /** Records the answer, drives the turn on and saves what it left. */
  method GoOn(agent: Agent, call: ToolCall, script: seq<Attempt>) returns (ok: bool)
    requires agent.chain == None && agent.Lawful() && Asked(agent.requests, agent.messages)
    requires Awaits(agent.messages, call.id) && agent.Sealed() && !agent.suspended
    requires Current(agent.requests, agent.context, agent.replaced)
    modifies agent, agent.inbox
    ensures Settled(agent) && SoundFor(agent.context, agent.messages)
    ensures old(agent.requests) <= agent.requests
    ensures old(agent.messages) + [Tool(call.id, Answered)] <= agent.messages
    ensures ok ==> agent.Kept()
    ensures ok && !agent.suspended ==>
              agent.messages != [] && agent.messages[|agent.messages| - 1] == Assistant([])
    ensures agent.course.failures == old(agent.course).failures ==> ok || agent.suspended
    ensures ok ==> agent.course.failures == old(agent.course).failures
  {
    hide WellPaired, Awaits, Asked, SoundFor, Inside, Vetted, Current;
    ok := GiveAnswer(agent, call);
    if !ok {
      return;
    }
    hide Settled;
    ok := DriveTurn(agent, script);
    var kept := KeepTurn(agent);
    ok := ok && kept;
  }

  /** What a turn left is saved. */
  method KeepTurn(agent: Agent) returns (ok: bool)
    requires Settled(agent)
    modifies agent`saved, agent`course
    ensures Settled(agent) && agent.course == Counted(old(agent.course), ok) && (ok ==> agent.Kept())
    ensures SoundFor(agent.context, agent.messages) && SoundFor(agent.saved.0, agent.saved.1)
    ensures agent.Lawful() && Asked(agent.requests, agent.messages)
  {
    hide WellPaired, Awaits, Asked, SoundFor, Inside, Vetted, Current;
    if agent.suspended {
      InsideIsSound(agent.context, agent.messages);
    }
    ok := agent.Checkpoint();
  }
}
