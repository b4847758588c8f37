/** Messages of a conversation and what the transcript owes to its tool calls. */
module Transcript {
  import Inbox
  import opened Wrappers

  /** How a call may share its turn with its neighbours. */
  datatype Mode = Serial | Automatic | Declared

  /** `wanted` and `closes` are what the arguments ask for: a mode, and to close
      or stop a browser. `steps` are the calls they expand to when they can be
      read as steps. */
  datatype ToolCall = ToolCall(id: string, name: string, wanted: Mode, closes: bool, steps: Option<seq<ToolCall>>)

  /** What a result says happened to the call. */
  datatype Outcome =
    | NotExecuted
    | Refused
    | Answered
    | Ran
    | Unknown
    | Combined(steps: seq<StepResult>)

  datatype StepResult = StepResult(id: string, outcome: Outcome)

  datatype Message =
    | System
    | User(prompt: Inbox.Prompt)
    | Assistant(calls: seq<ToolCall>)
    | Tool(id: string, outcome: Outcome)

  function Ids(calls: seq<ToolCall>): (ids: seq<string>)
    ensures |ids| == |calls|
    ensures forall k | 0 <= k < |calls| :: ids[k] == calls[k].id
  {
    seq(|calls|, k requires 0 <= k < |calls| => calls[k].id)
  }

  /** One result for each call, in source order. */
  function Results(calls: seq<ToolCall>, outcomes: seq<Outcome>): (results: seq<Message>)
    requires |calls| == |outcomes|
    ensures |results| == |calls|
    ensures forall k | 0 <= k < |calls| :: results[k] == Tool(calls[k].id, outcomes[k])
  {
    seq(|calls|, k requires 0 <= k < |calls| => Tool(calls[k].id, outcomes[k]))
  }

  function AllNotExecuted(n: nat): (outcomes: seq<Outcome>)
    ensures |outcomes| == n && forall k | 0 <= k < n :: outcomes[k] == NotExecuted
  {
    seq(n, _ => NotExecuted)
  }

  lemma ResultsConcat(a: seq<ToolCall>, x: seq<Outcome>, b: seq<ToolCall>, y: seq<Outcome>)
    requires |a| == |x| && |b| == |y|
    ensures Results(a, x) + Results(b, y) == Results(a + b, x + y)
  {
  }

  // ----- What was launched

  /** The tools a result says were launched. */
  ghost function Launched(id: string, outcome: Outcome): multiset<string>
    decreases outcome
  {
    match outcome
    case Ran => multiset{id}
    case Unknown => multiset{id}
    case Combined(steps) => LaunchedSteps(steps)
    case _ => multiset{}
  }

  ghost function LaunchedSteps(steps: seq<StepResult>): multiset<string>
    decreases steps
  {
    if steps == [] then multiset{}
    else
      LaunchedSteps(steps[..|steps| - 1]) + Launched(steps[|steps| - 1].id, steps[|steps| - 1].outcome)
  }

  ghost function LaunchedAll(calls: seq<ToolCall>, outcomes: seq<Outcome>): multiset<string>
    requires |calls| == |outcomes|
  {
    if calls == [] then multiset{}
    else
      var n := |calls| - 1;
      LaunchedAll(calls[..n], outcomes[..n]) + Launched(calls[n].id, outcomes[n])
  }

  lemma LaunchedOne(call: ToolCall, outcome: Outcome)
    ensures LaunchedAll([call], [outcome]) == Launched(call.id, outcome)
  {
    assert LaunchedAll([call][..0], [outcome][..0]) == multiset{};
  }

  lemma LaunchedMore(a: seq<ToolCall>, x: seq<Outcome>, call: ToolCall, outcome: Outcome)
    requires |a| == |x|
    ensures LaunchedAll(a + [call], x + [outcome]) == LaunchedAll(a, x) + Launched(call.id, outcome)
  {
    hide Launched;
    assert (a + [call])[..|a|] == a && (x + [outcome])[..|a|] == x;
  }

  lemma {:induction false} LaunchedConcat(a: seq<ToolCall>, x: seq<Outcome>, b: seq<ToolCall>, y: seq<Outcome>)
    requires |a| == |x| && |b| == |y|
    ensures LaunchedAll(a + b, x + y) == LaunchedAll(a, x) + LaunchedAll(b, y)
    decreases |b|
  {
    hide Launched, LaunchedAll;
    if b == [] {
      assert a + b == a && x + y == x;
      LaunchedNone(b, y);
    } else {
      var n := |b| - 1;
      LaunchedConcat(a, x, b[..n], y[..n]);
      LaunchedMore(a + b[..n], x + y[..n], b[n], y[n]);
      LaunchedMore(b[..n], y[..n], b[n], y[n]);
      assert b[..n] + [b[n]] == b && y[..n] + [y[n]] == y;
      assert a + b == (a + b[..n]) + [b[n]] && x + y == (x + y[..n]) + [y[n]];
    }
  }

  lemma LaunchedNone(calls: seq<ToolCall>, outcomes: seq<Outcome>)
    requires |calls| == |outcomes| == 0
    ensures LaunchedAll(calls, outcomes) == multiset{}
  {
  }

  lemma {:induction false} NothingLaunched(calls: seq<ToolCall>)
    ensures LaunchedAll(calls, AllNotExecuted(|calls|)) == multiset{}
  {
    if calls != [] {
      var n := |calls| - 1;
      NothingLaunched(calls[..n]);
      assert AllNotExecuted(|calls|)[..n] == AllNotExecuted(n);
    }
  }

  /** A worker that was started counts as launched, however it ended. */
  lemma {:induction false} WorkersLaunched(calls: seq<ToolCall>, outcomes: seq<Outcome>)
    requires |calls| == |outcomes| && forall k | 0 <= k < |outcomes| :: outcomes[k] in {Ran, Unknown}
    ensures LaunchedAll(calls, outcomes) == multiset(Ids(calls))
    decreases |calls|
  {
    hide Ids;
    if calls == [] {
      assert Ids(calls) == [];
    } else {
      var n := |calls| - 1;
      WorkersLaunched(calls[..n], outcomes[..n]);
      assert Launched(calls[n].id, outcomes[n]) == multiset{calls[n].id};
      hide Launched;
      assert Ids(calls) == Ids(calls[..n]) + [calls[n].id];
    }
  }

  function StepResults(calls: seq<ToolCall>, outcomes: seq<Outcome>): (results: seq<StepResult>)
    requires |calls| == |outcomes|
    ensures |results| == |calls|
    ensures forall k | 0 <= k < |calls| :: results[k] == StepResult(calls[k].id, outcomes[k])
  {
    seq(|calls|, k requires 0 <= k < |calls| => StepResult(calls[k].id, outcomes[k]))
  }

  lemma {:induction false} StepsLaunched(calls: seq<ToolCall>, outcomes: seq<Outcome>)
    requires |calls| == |outcomes|
    ensures LaunchedSteps(StepResults(calls, outcomes)) == LaunchedAll(calls, outcomes)
    decreases |calls|
  {
    hide Launched;
    if calls != [] {
      var n := |calls| - 1;
      StepsLaunched(calls[..n], outcomes[..n]);
      assert StepResults(calls, outcomes)[..n] == StepResults(calls[..n], outcomes[..n]);
    }
  }

  // ----- How a transcript grows

  /** What running calls changes: the messages, the step results of a running
      `steps` call, and every tool launched so far. */
  datatype Trace = Trace(messages: seq<Message>, chain: Option<seq<StepResult>>, launched: multiset<string>)

  /** Exactly one result for each call, in source order, and exactly the tools
      those results speak of were launched. */
  ghost predicate Follows(before: Trace, after: Trace, calls: seq<ToolCall>, outcomes: seq<Outcome>) {
    && |calls| == |outcomes|
    && after.launched == before.launched + LaunchedAll(calls, outcomes)
    && (before.chain.None? ==> after.chain.None? && after.messages == before.messages + Results(calls, outcomes))
    && (before.chain.Some? ==>
          after.messages == before.messages
          && after.chain == Some(before.chain.value + StepResults(calls, outcomes)))
  }

  lemma FollowsNothing(t: Trace)
    ensures Follows(t, t, [], [])
  {
    assert t.messages + Results([], []) == t.messages;
    assert t.chain.Some? ==> t.chain.value + StepResults([], []) == t.chain.value;
  }

  lemma FollowsBoth(
    s: Trace, t: Trace, u: Trace, a: seq<ToolCall>, x: seq<Outcome>, b: seq<ToolCall>, y: seq<Outcome>
  )
    requires Follows(s, t, a, x) && Follows(t, u, b, y)
    ensures Follows(s, u, a + b, x + y)
  {
    hide LaunchedAll, Results, StepResults;
    LaunchedConcat(a, x, b, y);
    if s.chain.None? {
      ResultsConcat(a, x, b, y);
      assert s.messages + Results(a, x) + Results(b, y) == s.messages + Results(a + b, x + y);
    } else {
      assert StepResults(a, x) + StepResults(b, y) == StepResults(a + b, x + y);
      assert s.chain.value + StepResults(a, x) + StepResults(b, y) == s.chain.value + StepResults(a + b, x + y);
    }
  }

  /** A finished chain of steps left the transcript alone. */
  lemma ChainDone(start: Trace, end: Trace, calls: seq<ToolCall>, outcomes: seq<Outcome>)
    requires Follows(start, end, calls, outcomes) && start.chain == Some([])
    ensures end.chain == Some(StepResults(calls, outcomes)) && end.messages == start.messages
    ensures end.launched == start.launched + LaunchedSteps(end.chain.value)
  {
    hide LaunchedAll, LaunchedSteps;
    StepsLaunched(calls, outcomes);
    assert [] + StepResults(calls, outcomes) == StepResults(calls, outcomes);
  }

  // ----- What is owed

  /** What is owed after one more message. */
  ghost function Next(owed: Option<multiset<string>>, m: Message): Option<multiset<string>> {
    match owed
    case None => None
    case Some(ids) =>
      match m
      case Tool(id, _) => if id in ids then Some(ids - multiset{id}) else None
      case Assistant(calls) => if ids == multiset{} then Some(multiset(Ids(calls))) else None
      case _ => if ids == multiset{} then Some(ids) else None
  }

  /** The calls still without a result, or nothing when a message came out of
      turn: a result nobody waits for, or another message while one is owed. */
  ghost function Owed(messages: seq<Message>): Option<multiset<string>> {
    if messages == [] then Some(multiset{})
    else Next(Owed(messages[..|messages| - 1]), messages[|messages| - 1])
  }

  /** Every call has exactly one result, directly after its message. */
  ghost predicate WellPaired(messages: seq<Message>) {
    Owed(messages) == Some(multiset{})
  }

  lemma OwedStep(messages: seq<Message>, m: Message)
    ensures Owed(messages + [m]) == Next(Owed(messages), m)
  {
    assert (messages + [m])[..|messages|] == messages;
  }

  /** Results settle the calls they name, in any company. */
  lemma {:induction false} ResultsPay(
    messages: seq<Message>, calls: seq<ToolCall>, outcomes: seq<Outcome>, rest: multiset<string>
  )
    requires |calls| == |outcomes|
    requires Owed(messages) == Some(multiset(Ids(calls)) + rest)
    ensures Owed(messages + Results(calls, outcomes)) == Some(rest)
    decreases |calls|
  {
    hide Owed, Next;
    if calls == [] {
      assert messages + Results(calls, outcomes) == messages;
      assert Owed(messages) == Some(rest) by {
        assert Ids(calls) == [];
        assert multiset(Ids(calls)) + rest == rest;
      }
    } else {
      var first, paid := calls[0], Tool(calls[0].id, outcomes[0]);
      FirstOwed(calls);
      assert multiset(Ids(calls)) + rest == multiset{first.id} + (multiset(Ids(calls[1..])) + rest);
      OwedStep(messages, paid);
      PayOne(first.id, outcomes[0], multiset(Ids(calls[1..])) + rest);
      ResultsPay(messages + [paid], calls[1..], outcomes[1..], rest);
      assert messages + Results(calls, outcomes) == (messages + [paid]) + Results(calls[1..], outcomes[1..]);
    }
  }

  lemma FirstOwed(calls: seq<ToolCall>)
    requires calls != []
    ensures multiset(Ids(calls)) == multiset{calls[0].id} + multiset(Ids(calls[1..]))
  {
    assert Ids(calls) == [calls[0].id] + Ids(calls[1..]);
  }

  lemma PayOne(id: string, outcome: Outcome, rest: multiset<string>)
    ensures Next(Some(multiset{id} + rest), Tool(id, outcome)) == Some(rest)
  {
    assert multiset{id} + rest - multiset{id} == rest;
  }

  lemma {:induction false} UsersKeepPairing(messages: seq<Message>, users: seq<Message>)
    requires WellPaired(messages) && forall k | 0 <= k < |users| :: users[k].User?
    ensures WellPaired(messages + users)
    decreases |users|
  {
    hide Owed;
    if users == [] {
      assert messages + users == messages;
    } else {
      var n := |users| - 1;
      UsersKeepPairing(messages, users[..n]);
      OwedStep(messages + users[..n], users[n]);
      assert messages + users == (messages + users[..n]) + [users[n]];
    }
  }

  /** A transcript in turn was in turn at every earlier point. */
  lemma {:induction false} InTurnBefore(messages: seq<Message>, n: nat)
    requires Owed(messages).Some? && n <= |messages|
    ensures Owed(messages[..n]).Some?
    decreases |messages|
  {
    if n < |messages| {
      InTurnBefore(messages[..|messages| - 1], n);
      assert messages[..|messages| - 1][..n] == messages[..n];
    } else {
      assert messages[..n] == messages;
    }
  }

  /** A result belongs to the nearest message before it that is not a result,
      and that message called for it. */
  lemma ResultHasItsCall(messages: seq<Message>, k: nat) returns (a: nat)
    requires Owed(messages).Some? && k < |messages| && messages[k].Tool?
    ensures a < k && messages[a].Assistant? && messages[k].id in Ids(messages[a].calls)
    ensures forall i | a < i <= k :: messages[i].Tool?
  {
    hide Owed, Next;
    InTurnBefore(messages, k + 1);
    assert messages[..k + 1] == messages[..k] + [messages[k]];
    OwedStep(messages[..k], messages[k]);
    ResultIsOwed(Owed(messages[..k]), messages[k]);
    a := OwedComesFrom(messages[..k], messages[k].id);
    forall i | a < i <= k
      ensures messages[i].Tool?
    {
      if i < k {
        assert messages[..k][i].Tool?;
      }
    }
  }

  lemma ResultIsOwed(owed: Option<multiset<string>>, m: Message)
    requires m.Tool? && Next(owed, m).Some?
    ensures owed.Some? && m.id in owed.value
  {
  }

  lemma {:induction false} OwedComesFrom(messages: seq<Message>, id: string) returns (a: nat)
    requires Owed(messages).Some? && id in Owed(messages).value
    ensures a < |messages| && messages[a].Assistant? && id in Ids(messages[a].calls)
    ensures forall i | a < i < |messages| :: messages[i].Tool?
    decreases |messages|
  {
    var n := |messages| - 1;
    assert Owed(messages) == Next(Owed(messages[..n]), messages[n]);
    if messages[n].Assistant? {
      a := n;
      InIds(messages[n].calls, id);
    } else {
      hide Owed;
      StillOwed(Owed(messages[..n]), messages[n], id);
      a := OwedComesFrom(messages[..n], id);
      forall i | a < i <= n
        ensures messages[i].Tool?
      {
        if i < n {
          assert messages[..n][i].Tool?;
        }
      }
    }
  }

  lemma StillOwed(owed: Option<multiset<string>>, m: Message, id: string)
    requires !m.Assistant? && Next(owed, m).Some? && id in Next(owed, m).value
    ensures m.Tool? && owed.Some? && id in owed.value
  {
  }

  lemma InIds(calls: seq<ToolCall>, id: string)
    ensures id in multiset(Ids(calls)) <==> id in Ids(calls)
  {
  }
}
