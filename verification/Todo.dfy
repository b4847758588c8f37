/** The current plan of a conversation, found from its newest messages back. */
module Todo {
  import Json
  import opened MaskedPlans
  import opened Masking
  import opened Plans
  import opened Strings
  import opened Wrappers

  /** A call whose fields are not all present does not count. */
  datatype Call = Call(id: string, name: string, arguments: string)

  datatype Message =
    | Tool(id: Option<string>, content: Option<string>)
    | Assistant(calls: seq<Option<Call>>)
    | Other

  // ----- In transcript order

  /** The first result for `id` in the run of results starting at `i`. */
  ghost function FirstResult(messages: seq<Message>, i: nat, id: string): Option<Message>
    requires i <= |messages|
    decreases |messages| - i
  {
    if i == |messages| || !messages[i].Tool? then None
    else if messages[i].id == Some(id) then Some(messages[i])
    else FirstResult(messages, i + 1, id)
  }

  /** The plans the steps of one `steps` call made, in order. */
  function StepPlans(entries: seq<Json.Value>): seq<Plan> {
    if entries == [] then []
    else
      var plan := PlanOfStep(entries[|entries| - 1]);
      StepPlans(entries[..|entries| - 1]) + if plan.Some? then [plan.value] else []
  }

  function PlanOfStep(entry: Json.Value): Option<Plan> {
    if Text(Get(entry, "tool")) == Some("todo_list") && Get(entry, "result").Some?
    then PlanIn(Get(entry, "result").value) else None
  }

  function Last<T>(items: seq<T>): Option<T> { if items == [] then None else Some(items[|items| - 1]) }

  /** The latest plan among the steps of one result. */
  function PlanInSteps(result: Json.Value): Option<Plan> {
    match Get(result, "steps")
    case Some(Array(entries)) => Last(StepPlans(entries))
    case _ => None
  }

  /** The step was a plan call that succeeded with this plan. */
  predicate StepMakes(entry: Json.Value, plan: Plan) {
    && Text(Get(entry, "tool")) == Some("todo_list") && plan.revision > 0
    && match Get(entry, "result")
       case Some(result) => Get(result, "error").None? && ParsePlan(result) == Ok(plan)
       case None => false
  }

  ghost predicate LastStepMakes(entries: seq<Json.Value>, k: nat, plan: Plan) {
    && k < |entries| && StepMakes(entries[k], plan)
    && forall l, other | k < l < |entries| :: !StepMakes(entries[l], other)
  }

  lemma StepMade(entry: Json.Value)
    ensures forall plan :: StepMakes(entry, plan) <==> PlanOfStep(entry) == Some(plan)
  {
    hide ParsePlan, Get;
  }

  lemma {:induction false} LastOfSteps(entries: seq<Json.Value>, plan: Plan)
    ensures Last(StepPlans(entries)) == Some(plan) <==> exists k: nat :: LastStepMakes(entries, k, plan)
    ensures StepPlans(entries) == [] <==> forall k, other | 0 <= k < |entries| :: !StepMakes(entries[k], other)
    decreases |entries|
  {
    hide ParsePlan, Get;
    if entries != [] {
      var n := |entries| - 1;
      var before := entries[..n];
      LastOfSteps(before, plan);
      StepMade(entries[n]);
      hide StepMakes, PlanOfStep;
      if k: nat :| LastStepMakes(entries, k, plan) {
        if k < n {
          assert LastStepMakes(before, k, plan);
        }
      }
      if Last(StepPlans(entries)) == Some(plan) {
        if StepMakes(entries[n], plan) {
          assert LastStepMakes(entries, n, plan);
        } else {
          var k: nat :| LastStepMakes(before, k, plan);
          assert LastStepMakes(entries, k, plan);
        }
      }
    }
  }

  /** The steps leave the plan of the last of them that made one. */
  lemma PlanInStepsMeans(result: Json.Value, plan: Plan)
    ensures PlanInSteps(result) == Some(plan) <==>
            exists entries, k: nat ::
              Get(result, "steps") == Some(Json.Array(entries)) && LastStepMakes(entries, k, plan)
  {
    hide Get, StepPlans, LastStepMakes;
    if Get(result, "steps").Some? && Get(result, "steps").value.Array? {
      LastOfSteps(Get(result, "steps").value.values, plan);
    }
  }

  predicate IsSet(call: Call) {
    call.name == "todo_list"
    && match Json.Parse(call.arguments)
       case Ok(arguments) => Text(Get(arguments, "action")) == Some("set")
       case Err => false
  }

  lemma SetsPlan(call: Call, arguments: Json.Value)
    requires call.name == "todo_list" && Json.Parse(call.arguments) == Ok(arguments)
    requires Text(Get(arguments, "action")) == Some("set")
    ensures IsSet(call)
  {
    hide Get, Text, Json.Parse;
  }

  /** Only a call that set a plan, or ran such calls as its steps, made one. */
  lemma OthersMakeNoPlan(call: Call, result: Option<Message>)
    requires PlanOf(call, result).Some?
    ensures call.name in {"todo_list", "steps"}
    ensures call.name == "todo_list" ==>
              && Json.Parse(call.arguments).Ok?
              && Text(Get(Json.Parse(call.arguments).value, "action")) == Some("set")
  {
    hide Get, PlanIn, PlanInSteps;
  }

  /** The plan a call made, given the message with its result. */
  function PlanOf(call: Call, result: Option<Message>): Option<Plan> {
    if result.None? || !result.value.Tool? || result.value.content.None? then None
    else match Json.Parse(result.value.content.value)
      case Err => None
      case Ok(value) =>
        if call.name == "steps" then PlanInSteps(value) else if IsSet(call) then PlanIn(value) else None
  }

  ghost function PlanAt(messages: seq<Message>, i: nat, call: Option<Call>): Option<Plan>
    requires i < |messages|
  {
    if call.None? then None else PlanOf(call.value, FirstResult(messages, i + 1, call.value.id))
  }

  /** The plans the first `n` calls of message `i` made. */
  ghost function PlansOfCalls(messages: seq<Message>, i: nat, calls: seq<Option<Call>>): seq<Plan>
    requires i < |messages|
  {
    if calls == [] then []
    else
      var n := |calls| - 1;
      PlansOfCalls(messages, i, calls[..n])
      + match PlanAt(messages, i, calls[n]) case Some(plan) => [plan] case None => []
  }

  ghost function PlansOf(messages: seq<Message>, i: nat): seq<Plan>
    requires i < |messages|
  {
    match messages[i] case Assistant(calls) => PlansOfCalls(messages, i, calls) case _ => []
  }

  /** Every plan made from message `i` on, in the order of the calls. */
  ghost function PlansFrom(messages: seq<Message>, i: nat): seq<Plan>
    requires i <= |messages|
    decreases |messages| - i
  {
    if i == |messages| then [] else PlansOf(messages, i) + PlansFrom(messages, i + 1)
  }

  // ----- Looking back

  /** What the map of results holds for the run starting at `i`. */
  ghost predicate HoldsFirst(results: map<string, Message>, messages: seq<Message>, i: nat)
    requires i <= |messages|
  {
    forall id ::
      (id in results <==> FirstResult(messages, i, id).Some?)
      && (id in results ==> FirstResult(messages, i, id) == Some(results[id]))
  }

  method LatestInCalls(
    ghost messages: seq<Message>, ghost i: nat, calls: seq<Option<Call>>, results: map<string, Message>
  )
    returns (plan: Option<Plan>)
    requires i < |messages| && HoldsFirst(results, messages, i + 1)
    ensures plan == Last(PlansOfCalls(messages, i, calls))
  {
    hide PlanOf, FirstResult;
    var k := |calls|;
    assert calls[..k] == calls;
    while k > 0
      invariant 0 <= k <= |calls|
      invariant Last(PlansOfCalls(messages, i, calls)) == Last(PlansOfCalls(messages, i, calls[..k]))
    {
      assert calls[..k][..k - 1] == calls[..k - 1];
      k := k - 1;
      if calls[k].Some? {
        var call := calls[k].value;
        var result := if call.id in results then Some(results[call.id]) else None;
        assert result == FirstResult(messages, i + 1, call.id);
        plan := PlanOf(call, result);
        if plan.Some? {
          return;
        }
      }
    }
    plan := None;
  }

  /** The latest plan made: the last in the order of the calls. */
  method Latest(messages: seq<Message>) returns (plan: Option<Plan>)
    ensures plan == Last(PlansFrom(messages, 0))
  {
    hide PlansOfCalls;
    var results: map<string, Message> := map[];
    var i := |messages|;
    while i > 0
      invariant 0 <= i <= |messages| && HoldsFirst(results, messages, i)
      invariant PlansFrom(messages, i) == []
    {
      i := i - 1;
      match messages[i] {
        case Tool(id, content) =>
          if id.Some? {
            results := results[id.value := messages[i]];
          }
        case Assistant(calls) =>
          plan := LatestInCalls(messages, i, calls, results);
          if plan.Some? {
            assert PlansFrom(messages, i) == PlansOfCalls(messages, i, calls) + [];
            LastIsLast(messages, i);
            return;
          }
          results := map[];
        case Other =>
          results := map[];
      }
    }
    plan := None;
  }

  lemma {:induction false} LastIsLast(messages: seq<Message>, i: nat)
    requires i <= |messages| && PlansFrom(messages, i) != []
    ensures Last(PlansFrom(messages, 0)) == Last(PlansFrom(messages, i))
  {
    hide PlansOf;
    if i > 0 {
      LastIsLast(messages, i - 1);
    }
  }

  // ----- What a set call leaves

  /** A run of results ends before the next answer. */
  lemma {:induction false} RunEndsBefore(messages: seq<Message>, more: seq<Message>, i: nat, id: string)
    requires i <= |messages| && more != [] && more[0].Assistant?
    ensures FirstResult(messages + more, i, id) == FirstResult(messages, i, id)
    decreases |messages| - i
  {
    if i < |messages| {
      RunEndsBefore(messages, more, i + 1, id);
    }
  }

  lemma {:induction false} CallsStay(messages: seq<Message>, more: seq<Message>, i: nat, calls: seq<Option<Call>>)
    requires i < |messages| && more != [] && more[0].Assistant?
    ensures PlansOfCalls(messages + more, i, calls) == PlansOfCalls(messages, i, calls)
    decreases |calls|
  {
    hide PlanOf, FirstResult;
    if calls != [] {
      var n := |calls| - 1;
      CallsStay(messages, more, i, calls[..n]);
      if calls[n].Some? {
        RunEndsBefore(messages, more, i + 1, calls[n].value.id);
      }
    }
  }

  /** Plans made before an answer stay the plans made before it. */
  lemma {:induction false} PlansAddUp(messages: seq<Message>, more: seq<Message>, i: nat)
    requires i <= |messages| && more != [] && more[0].Assistant?
    ensures PlansFrom(messages + more, i) == PlansFrom(messages, i) + PlansFrom(messages + more, |messages|)
    decreases |messages| - i
  {
    hide PlansOf;
    if i == |messages| {
      assert PlansFrom(messages, i) == [];
    } else {
      PlansAddUp(messages, more, i + 1);
      PlansStay(messages, more, i);
    }
  }

  lemma PlansStay(messages: seq<Message>, more: seq<Message>, i: nat)
    requires i < |messages| && more != [] && more[0].Assistant?
    ensures PlansOf(messages + more, i) == PlansOf(messages, i)
  {
    hide PlansOfCalls;
    match messages[i] {
      case Assistant(calls) => CallsStay(messages, more, i, calls);
      case _ =>
    }
  }

  /** The call with the result that is recorded for it: the value of the plan,
      masked. */
  function Recorded(patterns: seq<string>, call: Call, p: Plan): seq<Message>
    requires Usable(patterns)
  {
    [Assistant([Some(call)]), Tool(Some(call.id), Some(Json.Encode(Masked(patterns, PlanValue(p)))))]
  }

  /** What the recorded call counts for. */
  lemma RecordedPlans(patterns: seq<string>, messages: seq<Message>, call: Call, p: Plan)
    requires Usable(patterns) && IsSet(call)
    ensures var made := PlanIn(Masked(patterns, PlanValue(p)));
            PlansFrom(messages + Recorded(patterns, call, p), |messages|) == if made.Some? then [made.value] else []
  {
    hide PlanIn, Masked, PlanValue, PlansFrom;
    PlanValueIsWellFormed(p);
    MaskedReadsBack(patterns, PlanValue(p));
    OneCall(messages, call, Recorded(patterns, call, p)[1]);
  }

  lemma OneCall(messages: seq<Message>, call: Call, result: Message)
    requires result.Tool? && result.id == Some(call.id)
    ensures var made := PlanOf(call, Some(result));
            PlansFrom(messages + [Assistant([Some(call)]), result], |messages|) ==
            if made.Some? then [made.value] else []
  {
    hide PlanOf, PlansFrom, PlansOfCalls, FirstResult;
    var all, n := messages + [Assistant([Some(call)]), result], |messages|;
    assert all[n] == Assistant([Some(call)]) && all[n + 1] == result;
    FirstIsHere(all, n + 1, call.id);
    OneOfCalls(all, n, call);
    PlansNext(all, n);
    PlansNext(all, n + 1);
    PlansNext(all, n + 2);
  }

  lemma FirstIsHere(messages: seq<Message>, i: nat, id: string)
    requires i < |messages| && messages[i].Tool? && messages[i].id == Some(id)
    ensures FirstResult(messages, i, id) == Some(messages[i])
  {
  }

  lemma OneOfCalls(messages: seq<Message>, i: nat, call: Call)
    requires i < |messages|
    ensures var made := PlanAt(messages, i, Some(call));
            PlansOfCalls(messages, i, [Some(call)]) == if made.Some? then [made.value] else []
  {
    hide PlanAt;
    assert [Some(call)][..0] == [];
    assert PlansOfCalls(messages, i, []) == [];
  }

  lemma PlansNext(messages: seq<Message>, i: nat)
    requires i <= |messages|
    ensures PlansFrom(messages, i) == if i == |messages| then [] else PlansOf(messages, i) + PlansFrom(messages, i + 1)
  {
  }

  /** After a set call the latest plan is the one read from its masked result,
      or still the previous one when none can be read; and it is the plan that
      was set, one revision on, exactly when masking keeps that plan. */
  lemma SetIsLatest(
    patterns: seq<string>, messages: seq<Message>, call: Call, arguments: Json.Value, previous: Option<Plan>
  )
    requires Usable(patterns) && call.name == "todo_list" && Json.Parse(call.arguments) == Ok(arguments)
    requires Text(Get(arguments, "action")) == Some("set")
    requires previous == Last(PlansFrom(messages, 0)) && SetPlan(arguments, previous).Ok?
    ensures var p := SetPlan(arguments, previous).value;
            var made := PlanIn(Masked(patterns, PlanValue(p)));
            var latest := Last(PlansFrom(messages + Recorded(patterns, call, p), 0));
            && latest == (if made.Some? then made else previous)
            && (latest == Some(p) <==> PlanKept(patterns, p))
            && p.revision == (if previous.Some? then previous.value.revision else 0) + 1
  {
    hide SetPlan, PlanIn, Masked, PlanValue, PlanKept, PlansFrom, Recorded, IsSet, ValidPlan,
         Get, Text, Json.Parse;
    SetsPlan(call, arguments);
    var p := SetPlan(arguments, previous).value;
    SavedPlanReadsBack(arguments, previous);
    SetPlanIsValid(arguments, previous);
    MaskedPlanReadsBack(patterns, p);
    RecordedPlans(patterns, messages, call, p);
    AnswerFirst(patterns, call, p);
    PlansAddUp(messages, Recorded(patterns, call, p), 0);
  }

  lemma AnswerFirst(patterns: seq<string>, call: Call, p: Plan)
    requires Usable(patterns)
    ensures Recorded(patterns, call, p) != [] && Recorded(patterns, call, p)[0].Assistant?
  {
    hide Masked, PlanValue;
  }

  /** With the secret `t1`, a plan with a task of that name is forgotten: the
      latest plan stays the previous one. */
  lemma SecretTaskIsForgotten(messages: seq<Message>, call: Call, arguments: Json.Value, previous: Option<Plan>, k: nat)
    requires call.name == "todo_list" && Json.Parse(call.arguments) == Ok(arguments)
    requires Text(Get(arguments, "action")) == Some("set")
    requires previous == Last(PlansFrom(messages, 0)) && SetPlan(arguments, previous).Ok?
    requires k < |SetPlan(arguments, previous).value.tasks| && SetPlan(arguments, previous).value.tasks[k].id == "t1"
    ensures var recorded := Recorded(["t1", "t1"], call, SetPlan(arguments, previous).value);
            Last(PlansFrom(messages + recorded, 0)) == previous
  {
    hide SetPlan, PlanIn, Masked, PlanValue, PlanKept, PlansFrom, Recorded, IsSet, ValidTask, Contains,
         Get, Text, Json.Parse;
    SetsPlan(call, arguments);
    var p := SetPlan(arguments, previous).value;
    SetPlanIsValid(arguments, previous);
    ContainsAtFront("t1", "t1");
    MaskedIdHidesPlan(["t1", "t1"], p, k, 0);
    SetIsLatest(["t1", "t1"], messages, call, arguments, previous);
  }
}
