/** Conversation plans and the JSON values that carry them. */
module Plans {
  import opened Json
  import JsonRoundTrip
  import opened Strings
  import opened Wrappers

  const MAX_TASKS: nat := 40
  const MAX_SNAPSHOT_BYTES: nat := 32768
  const MAX_NUMBER: nat := 0xFFFF_FFFF_FFFF_FFFF

  datatype Task = Task(id: string, title: string, status: string, note: string, agent: Option<string>)

  datatype Plan = Plan(title: string, revision: nat, tasks: seq<Task>)

  // ----- Reading values

  function Lookup(entries: seq<Member>, key: string): Option<Value> {
    if entries == [] then None
    else if entries[0].key == key then Some(entries[0].value)
    else Lookup(entries[1..], key)
  }

  function Get(v: Value, key: string): Option<Value> {
    match v case Object(entries) => Lookup(entries, key) case _ => None
  }

  function Text(v: Option<Value>): Option<string> {
    match v case Some(String(text)) => Some(text) case _ => None
  }

  /** The number an all-digit text writes. */
  function Decimal(digits: string): nat
    requires forall k | 0 <= k < |digits| :: IsDigit(digits[k])
  {
    if digits == [] then 0
    else
      assert IsDigit(digits[|digits| - 1]);
      Decimal(digits[..|digits| - 1]) * 10 + (digits[|digits| - 1] as int - '0' as int)
  }

  /** The digits of a number, without leading zeros. */
  function Digits(n: nat): (digits: string)
    ensures digits != [] && forall k | 0 <= k < |digits| :: IsDigit(digits[k])
    ensures Decimal(digits) == n
    ensures digits[0] == '0' ==> digits == "0"
  {
    if n < 10 then ['0' + n as char] else Digits(n / 10) + ['0' + (n % 10) as char]
  }

  function Whole(v: Option<Value>): Option<nat> {
    match v
    case Some(Number(text)) =>
      var digits := if Starts(text, '+') then text[1..] else text;
      if digits == [] || exists k | 0 <= k < |digits| :: !IsDigit(digits[k]) then None
      else if Decimal(digits) > MAX_NUMBER then None
      else Some(Decimal(digits))
    case _ => None
  }

  predicate IsControl(c: char) { c as int <= 0x1f || 0x7f <= c as int <= 0x9f }

  predicate SingleLine(text: string, limit: nat) {
    ByteLength(text) <= limit && forall k | 0 <= k < |text| :: !IsControl(text[k])
  }

  predicate Required(text: string, limit: nat) { TrimStart(text) != [] && SingleLine(text, limit) }

  /** Not only whitespace, not too long, and without control characters: neither
      those below the blank nor the deleted and the following thirty-two. */
  lemma RequiredMeans(text: string, limit: nat)
    ensures Required(text, limit) <==>
            && (exists k | 0 <= k < |text| :: !IsWhitespace(text[k])) && ByteLength(text) <= limit
            && forall k | 0 <= k < |text| :: text[k] >= ' ' && !('\U{7f}' <= text[k] <= '\U{9f}')
  {
    TrimmedAway(text);
    hide TrimStart, IsWhitespace, ByteLength;
  }

  lemma {:induction false} TrimmedAway(text: string)
    ensures TrimStart(text) != [] <==> exists k | 0 <= k < |text| :: !IsWhitespace(text[k])
    decreases |text|
  {
    hide IsWhitespace;
    if text != [] {
      TrimmedAway(text[1..]);
      assert forall k | 0 < k < |text| :: text[k] == text[1..][k - 1];
    }
  }

  function RequiredText(v: Value, key: string, limit: nat): Result<string> {
    match Text(Get(v, key))
    case Some(text) => if Required(text, limit) then Ok(text) else Err
    case None => Err
  }

  function OptionalText(v: Value, key: string, limit: nat): Result<Option<string>> {
    match Get(v, key)
    case None => Ok(None)
    case Some(Null) => Ok(None)
    case Some(String(text)) => if SingleLine(text, limit) then Ok(Some(text)) else Err
    case _ => Err
  }

  // ----- Tasks

  predicate IdChar(c: char) { IsDigit(c) || 'a' <= c <= 'z' || 'A' <= c <= 'Z' || c == '-' || c == '_' }

  /** All ASCII letters and digits, from the first to the last, and nothing beside
      them but a dash and an underscore. */
  lemma IdCharMeans(c: char)
    ensures IdChar('a') && IdChar('z') && IdChar('A') && IdChar('Z') && IdChar('0') && IdChar('9')
    ensures !IdChar('`') && !IdChar('{') && !IdChar('@') && !IdChar('[') && !IdChar('/') && !IdChar(':')
    ensures c < '0' ==> (IdChar(c) <==> c == '-')
    ensures 'Z' < c < 'a' ==> (IdChar(c) <==> c == '_')
    ensures c > 'z' ==> !IdChar(c)
  {
  }

  predicate IsStatus(status: string) {
    status == "pending" || status == "in_progress" || status == "waiting" || status == "done" || status == "cancelled"
  }

  predicate IsId(id: string) { forall k | 0 <= k < |id| :: IdChar(id[k]) }

  function ParseTask(v: Value): Result<Task> {
    match RequiredText(v, "id", 48)
    case Err => Err
    case Ok(id) =>
      if !IsId(id) then Err
      else match RequiredText(v, "status", 24)
        case Err => Err
        case Ok(status) =>
          if !IsStatus(status) then Err
          else match (RequiredText(v, "title", 200), OptionalText(v, "note", 800), OptionalText(v, "agent", 80))
            case (Ok(title), Ok(note), Ok(agent)) =>
              Ok(Task(id, title, status, if note.Some? then note.value else "", agent))
            case _ => Err
  }

  function TaskValue(t: Task): Value {
    Object((if t.agent.Some? then [Member("agent", String(t.agent.value))] else [])
           + [Member("id", String(t.id)), Member("note", String(t.note)),
              Member("status", String(t.status)), Member("title", String(t.title))])
  }

  predicate ValidTask(t: Task) {
    && Required(t.id, 48) && IsId(t.id)
    && Required(t.title, 200)
    && Required(t.status, 24) && IsStatus(t.status)
    && SingleLine(t.note, 800)
    && (t.agent.Some? ==> SingleLine(t.agent.value, 80))
  }

  /** A task comes back from its value exactly when it is valid. */
  lemma TaskReadsBack(t: Task)
    ensures ParseTask(TaskValue(t)) == Ok(t) <==> ValidTask(t)
  {
    hide Required, SingleLine, IsId, IsStatus;
    TaskFields(t);
  }

  lemma TaskFields(t: Task)
    ensures Get(TaskValue(t), "id") == Some(String(t.id)) && Get(TaskValue(t), "title") == Some(String(t.title))
    ensures Get(TaskValue(t), "status") == Some(String(t.status)) && Get(TaskValue(t), "note") == Some(String(t.note))
    ensures Get(TaskValue(t), "agent") == if t.agent.Some? then Some(String(t.agent.value)) else None
  {
    var title, status := [Member("title", String(t.title))], Member("status", String(t.status));
    var note, id := Member("note", String(t.note)), Member("id", String(t.id));
    LookupFirst(title[0], [], "title");
    assert title == [title[0]] + [];
    forall key | key in {"agent", "id", "note", "status", "title"}
      ensures Lookup([id, note, status] + title, key) ==
              if key == "id" then Some(id.value) else if key == "note" then Some(note.value)
              else if key == "status" then Some(status.value) else if key == "title" then Some(title[0].value) else None
    {
      LookupFirst(title[0], [], key);
      LookupFirst(status, title, key);
      LookupFirst(note, [status] + title, key);
      LookupFirst(id, [note] + ([status] + title), key);
      assert [id, note, status] + title == [id] + ([note] + ([status] + title));
    }
    var rest := [id, note, status] + title;
    assert rest == [id, note, status, title[0]];
    if t.agent.Some? {
      forall key: string {
        LookupFirst(Member("agent", String(t.agent.value)), rest, key);
      }
    } else {
      assert [] + rest == rest;
    }
  }

  lemma LookupFirst(first: Member, rest: seq<Member>, key: string)
    ensures Lookup([first] + rest, key) == if first.key == key then Some(first.value) else Lookup(rest, key)
  {
    assert ([first] + rest)[1..] == rest;
  }

  // ----- Task lists

  ghost predicate DistinctIds(tasks: seq<Task>) {
    forall j, k | 0 <= j < k < |tasks| :: tasks[j].id != tasks[k].id
  }

  predicate HasId(tasks: seq<Task>, id: string) {
    exists k | 0 <= k < |tasks| :: tasks[k].id == id
  }

  /** The tasks of the items, unless one is no task or repeats an identifier. */
  function TasksOf(items: seq<Value>): (r: Result<seq<Task>>)
    ensures r.Ok? ==> |r.value| == |items| && DistinctIds(r.value)
  {
    if items == [] then Ok([])
    else match TasksOf(items[..|items| - 1])
      case Err => Err
      case Ok(earlier) =>
        match ParseTask(items[|items| - 1])
        case Err => Err
        case Ok(task) => if HasId(earlier, task.id) then Err else Ok(earlier + [task])
  }

  function TasksIn(v: Value): (r: Result<seq<Task>>)
    ensures r.Ok? ==> |r.value| <= MAX_TASKS && DistinctIds(r.value)
  {
    match Get(v, "tasks")
    case Some(Array(items)) => if |items| > MAX_TASKS then Err else TasksOf(items)
    case _ => Err
  }

  lemma {:induction false} FailsEarly(items: seq<Value>, n: nat)
    requires n <= |items| && TasksOf(items[..n]).Err?
    ensures TasksOf(items).Err?
    decreases |items| - n
  {
    if n < |items| {
      assert items[..n + 1][..n] == items[..n];
      FailsEarly(items, n + 1);
    } else {
      assert items[..n] == items;
    }
  }

  /** Reads the tasks in order and keeps the identifiers seen so far. */
  method ParseTasks(v: Value) returns (r: Result<seq<Task>>)
    ensures r == TasksIn(v)
  {
    hide ParseTask;
    match Get(v, "tasks") {
      case Some(Array(items)) =>
        if |items| > MAX_TASKS {
          return Err;
        }
        var ids: set<string> := {};
        var tasks := [];
        for k := 0 to |items|
          invariant TasksOf(items[..k]) == Ok(tasks) && |tasks| == k
          invariant forall id :: id in ids <==> HasId(tasks, id)
        {
          var task := ParseTask(items[k]);
          assert items[..k + 1][..k] == items[..k];
          if task.Err? || task.value.id in ids {
            FailsEarly(items, k + 1);
            return Err;
          }
          OneMoreId(tasks, task.value);
          ids := ids + {task.value.id};
          tasks := tasks + [task.value];
        }
        assert items[..|items|] == items;
        r := Ok(tasks);
      case _ =>
        r := Err;
    }
  }

  lemma OneMoreId(tasks: seq<Task>, task: Task)
    ensures forall id :: HasId(tasks + [task], id) <==> HasId(tasks, id) || id == task.id
  {
    forall id
      ensures HasId(tasks + [task], id) <==> HasId(tasks, id) || id == task.id
    {
      var more := tasks + [task];
      if HasId(tasks, id) {
        var k :| 0 <= k < |tasks| && tasks[k].id == id;
        assert more[k].id == id;
      }
      assert more[|tasks|] == task;
    }
  }

  function TaskValues(tasks: seq<Task>): (values: seq<Value>)
    ensures |values| == |tasks| && forall k | 0 <= k < |tasks| :: values[k] == TaskValue(tasks[k])
  {
    seq(|tasks|, k requires 0 <= k < |tasks| => TaskValue(tasks[k]))
  }

  ghost predicate ValidTasks(tasks: seq<Task>) {
    DistinctIds(tasks) && forall k | 0 <= k < |tasks| :: ValidTask(tasks[k])
  }

  lemma {:induction false} TasksReadBack(tasks: seq<Task>)
    ensures TasksOf(TaskValues(tasks)) == Ok(tasks) <==> ValidTasks(tasks)
    decreases |tasks|
  {
    hide ParseTask, TaskValue, ValidTask;
    if tasks != [] {
      var n := |tasks| - 1;
      var earlier, last := tasks[..n], tasks[n];
      TasksReadBack(earlier);
      TaskReadsBack(last);
      assert TaskValues(tasks)[..n] == TaskValues(earlier);
      assert tasks == earlier + [last];
      if TasksOf(TaskValues(tasks)) == Ok(tasks) {
        assert TasksOf(TaskValues(earlier)).value == earlier;
      }
    }
  }

  // ----- Plans

  function PlanValue(p: Plan): Value {
    Object([Member("revision", Number(Digits(p.revision))), Member("tasks", Array(TaskValues(p.tasks))),
            Member("title", String(p.title))])
  }

  function ParsePlan(v: Value): Result<Plan> {
    match (Whole(Get(v, "revision")), TasksIn(v))
    case (Some(revision), Ok(tasks)) =>
      if revision == 0 && tasks == [] && Text(Get(v, "title")) == Some("") then Ok(Plan("", revision, tasks))
      else (match RequiredText(v, "title", 200)
            case Ok(title) => Ok(Plan(title, revision, tasks))
            case Err => Err)
    case _ => Err
  }

  /** The plan a set call makes after `previous`. */
  function SetPlan(arguments: Value, previous: Option<Plan>): Result<Plan> {
    var revision := (if previous.Some? then previous.value.revision else 0) + 1;
    if revision > MAX_NUMBER then Err
    else match (RequiredText(arguments, "title", 200), TasksIn(arguments))
      case (Ok(title), Ok(tasks)) =>
        var plan := Plan(title, revision, tasks);
        if ByteLength(Encode(PlanValue(plan))) > MAX_SNAPSHOT_BYTES then Err else Ok(plan)
      case _ => Err
  }

  /** A plan is set unless the revisions are used up, a field is not as it must
      be, or the whole would be too long to save. */
  lemma SetPlanFails(arguments: Value, previous: Option<Plan>)
    ensures SetPlan(arguments, previous).Err? <==>
            || (previous.Some? && previous.value.revision >= MAX_NUMBER)
            || RequiredText(arguments, "title", 200).Err? || TasksIn(arguments).Err?
            || ByteLength(Encode(PlanValue(Plan(RequiredText(arguments, "title", 200).value,
                                                (if previous.Some? then previous.value.revision else 0) + 1,
                                                TasksIn(arguments).value)))) > MAX_SNAPSHOT_BYTES
  {
    hide Encode, PlanValue;
  }

  /** The plan a successful result carries. */
  function PlanIn(result: Value): Option<Plan> {
    if Get(result, "error").Some? then None
    else match ParsePlan(result)
      case Ok(plan) => if plan.revision > 0 then Some(plan) else None
      case Err => None
  }

  ghost predicate ValidPlan(p: Plan) {
    && p.revision <= MAX_NUMBER && |p.tasks| <= MAX_TASKS && ValidTasks(p.tasks)
    && (Required(p.title, 200) || (p == Plan("", 0, [])))
  }

  lemma PlanFields(p: Plan)
    ensures Get(PlanValue(p), "revision") == Some(Number(Digits(p.revision)))
    ensures Get(PlanValue(p), "tasks") == Some(Array(TaskValues(p.tasks)))
    ensures Get(PlanValue(p), "title") == Some(String(p.title))
    ensures Get(PlanValue(p), "error") == None
  {
    hide Digits, TaskValues;
    var revision, tasks := Member("revision", Number(Digits(p.revision))), Member("tasks", Array(TaskValues(p.tasks)));
    var title := Member("title", String(p.title));
    forall key | key in {"revision", "tasks", "title", "error"}
      ensures Lookup([revision, tasks, title], key) ==
              if key == "revision" then Some(revision.value) else if key == "tasks" then Some(tasks.value)
              else if key == "title" then Some(title.value) else None
    {
      LookupFirst(title, [], key);
      LookupFirst(tasks, [title], key);
      LookupFirst(revision, [tasks, title], key);
      assert [title] + [] == [title] && [tasks] + [title] == [tasks, title];
      assert [revision] + [tasks, title] == [revision, tasks, title];
    }
  }

  lemma WholeReadsBack(n: nat)
    requires n <= MAX_NUMBER
    ensures Whole(Some(Number(Digits(n)))) == Some(n)
  {
  }

  /** A plan comes back from its value exactly when it is valid. */
  lemma PlanReadsBack(p: Plan)
    ensures ParsePlan(PlanValue(p)) == Ok(p) <==> ValidPlan(p)
  {
    hide Digits, TaskValues, TasksOf, ValidTasks, Required, PlanValue, Whole;
    PlanFields(p);
    TasksReadBack(p.tasks);
    WholeIsBounded(PlanValue(p));
    if p.revision <= MAX_NUMBER {
      WholeReadsBack(p.revision);
    }
    EmptyIsNotRequired();
    NoTasks();
  }

  lemma WholeIsBounded(v: Value)
    ensures Whole(Get(v, "revision")).Some? ==> Whole(Get(v, "revision")).value <= MAX_NUMBER
  {
  }

  lemma EmptyIsNotRequired()
    ensures !Required("", 200)
  {
  }

  lemma NoTasks()
    ensures ValidTasks([])
  {
  }

  // ----- What a set call saves

  lemma ParsedTaskIsValid(v: Value)
    ensures ParseTask(v).Ok? ==> ValidTask(ParseTask(v).value)
  {
    hide Required, IsId, IsStatus;
    EmptyIsSingleLine();
  }

  lemma EmptyIsSingleLine()
    ensures SingleLine("", 800)
  {
  }

  lemma {:induction false} ParsedTasksAreValid(items: seq<Value>)
    ensures TasksOf(items).Ok? ==> ValidTasks(TasksOf(items).value)
    decreases |items|
  {
    hide ParseTask, ValidTask;
    if items != [] {
      ParsedTasksAreValid(items[..|items| - 1]);
      ParsedTaskIsValid(items[|items| - 1]);
    }
  }

  lemma SetPlanIsValid(arguments: Value, previous: Option<Plan>)
    ensures var r := SetPlan(arguments, previous); r.Ok? ==> ValidPlan(r.value) && r.value.revision > 0
  {
    hide Required, ValidTasks, TasksOf, PlanValue;
    match Get(arguments, "tasks")
    case Some(Array(items)) => ParsedTasksAreValid(items);
    case _ =>
  }

  lemma KeysAscend()
    ensures Less("agent", "id") && Less("agent", "note") && Less("agent", "status") && Less("agent", "title")
    ensures Less("id", "note") && Less("id", "status") && Less("id", "title")
    ensures Less("note", "status") && Less("note", "title") && Less("status", "title")
    ensures Less("revision", "tasks") && Less("revision", "title") && Less("tasks", "title")
  {
    assert "tasks"[1..] == "asks" && "title"[1..] == "itle";
  }

  lemma TaskValueIsWellFormed(t: Task)
    ensures WellFormed(TaskValue(t)) && Within(TaskValue(t), MAX_DEPTH - 2)
  {
    hide Less;
    KeysAscend();
  }

  lemma DigitsAreANumber(n: nat)
    ensures IsNumber(Digits(n))
  {
    var text := Digits(n);
    assert text == "" + (text + ("" + ""));
    assert NumberParts(text, "", text, "", "");
  }

  lemma PlanValueIsWellFormed(p: Plan)
    ensures WellFormed(PlanValue(p)) && Within(PlanValue(p), MAX_DEPTH)
  {
    hide Less, Digits, IsNumber, TaskValue;
    KeysAscend();
    DigitsAreANumber(p.revision);
    forall k | 0 <= k < |p.tasks|
      ensures WellFormed(TaskValues(p.tasks)[k]) && Within(TaskValues(p.tasks)[k], MAX_DEPTH - 2)
    {
      TaskValueIsWellFormed(p.tasks[k]);
    }
    assert WellFormed(Array(TaskValues(p.tasks))) && Within(Array(TaskValues(p.tasks)), MAX_DEPTH - 1);
  }

  /** The plan a set call makes is one revision further, and its saved text
      reads back as the same plan. */
  lemma SavedPlanReadsBack(arguments: Value, previous: Option<Plan>)
    requires SetPlan(arguments, previous).Ok?
    ensures var p := SetPlan(arguments, previous).value;
            && Json.Parse(Encode(PlanValue(p))) == Ok(PlanValue(p)) && PlanIn(PlanValue(p)) == Some(p)
            && p.revision == (if previous.Some? then previous.value.revision else 0) + 1
            && DistinctIds(p.tasks)
  {
    hide PlanValue, ParsePlan;
    var p := SetPlan(arguments, previous).value;
    SetPlanIsValid(arguments, previous);
    PlanReadsBack(p);
    PlanFields(p);
    PlanValueIsWellFormed(p);
    JsonRoundTrip.RoundTrip(false, PlanValue(p));
  }
}
