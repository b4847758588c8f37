/**
  What becomes of a plan when the result that carries it is masked before it is
  recorded.
 */
module MaskedPlans {
  import opened Json
  import opened Masking
  import opened Plans
  import opened Strings
  import opened Wrappers

  // ----- Reading a masked object

  lemma {:induction false} LookupPut(entries: seq<Member>, key: string, value: Value, other: string)
    ensures Lookup(Put(entries, key, value), other) == if other == key then Some(value) else Lookup(entries, other)
    decreases |entries|
  {
    hide Less;
    if entries == [] || entries[0].key == key || Less(key, entries[0].key) {
      LookupFirst(Member(key, value), [], other);
      LookupFirst(Member(key, value), entries, other);
      if entries != [] {
        LookupFirst(Member(key, value), entries[1..], other);
      }
      assert [Member(key, value)] + [] == [Member(key, value)];
    } else {
      LookupPut(entries[1..], key, value, other);
      LookupFirst(entries[0], Put(entries[1..], key, value), other);
    }
  }

  lemma {:induction false} LookupLast(entries: seq<Member>, m: Member, key: string)
    requires JsonRoundTrip.HasKey(entries, m.key) ==> m.key != key
    ensures Lookup(entries + [m], key) == if m.key == key then Some(m.value) else Lookup(entries, key)
    decreases |entries|
  {
    if entries == [] {
      LookupFirst(m, [], key);
      assert [] + [m] == [m] + [] == [m];
    } else {
      var rest := entries[1..];
      if JsonRoundTrip.HasKey(rest, m.key) {
        var k :| 0 <= k < |rest| && rest[k].key == m.key;
        assert entries[k + 1].key == m.key;
      }
      LookupLast(rest, m, key);
      LookupFirst(entries[0], rest + [m], key);
      assert entries + [m] == [entries[0]] + (rest + [m]);
      assert entries[0].key == m.key ==> JsonRoundTrip.HasKey(entries, m.key);
    }
  }

  lemma LastIsNew(entries: seq<Member>)
    requires entries != [] && Ordered(entries)
    ensures Ordered(entries[..|entries| - 1])
    ensures !JsonRoundTrip.HasKey(entries[..|entries| - 1], entries[|entries| - 1].key)
  {
    var n := |entries| - 1;
    forall k | 0 <= k < n
      ensures entries[k].key != entries[n].key
    {
      JsonRoundTrip.LessIsTotal(entries[k].key, entries[n].key);
    }
    hide Less;
  }

  /** A key without the mark is found exactly when masking keeps it. */
  lemma {:induction false} LookupMasked(patterns: seq<string>, entries: seq<Member>, key: string)
    requires Usable(patterns) && Ordered(entries) && !Contains(key, MARK)
    ensures Lookup(MaskEntries(patterns, entries), key) ==
            if !Kept(patterns, key) then None
            else match Lookup(entries, key) case None => None case Some(v) => Some(MaskValue(patterns, v))
    decreases |entries|
  {
    hide MaskText, MaskValue, Put, Ordered, Contains, MARK;
    if entries != [] {
      var n := |entries| - 1;
      var earlier, last := entries[..n], entries[n];
      LastIsNew(entries);
      LookupMasked(patterns, earlier, key);
      LookupPut(MaskEntries(patterns, earlier), MaskText(patterns, last.key), MaskValue(patterns, last.value), key);
      MaskedIsMarked(patterns, last.key);
      hide MaskEntries, Lookup;
      LookupLast(earlier, last, key);
      assert entries == earlier + [last];
    }
  }

  lemma {:induction false} EmptyIsKept(patterns: seq<string>)
    requires Usable(patterns)
    ensures Kept(patterns, "")
    decreases |patterns|
  {
    if patterns != [] {
      EmptyIsKept(patterns[1..]);
    }
  }

  // ----- Tasks and plans

  /** Masking keeps each text of the task, and the name of each field. */
  predicate TaskKept(patterns: seq<string>, t: Task)
    requires Usable(patterns)
  {
    && Kept(patterns, "id") && Kept(patterns, t.id)
    && Kept(patterns, "title") && Kept(patterns, t.title)
    && Kept(patterns, "status") && Kept(patterns, t.status)
    && (t.note != "" ==> Kept(patterns, "note") && Kept(patterns, t.note))
    && (t.agent.Some? ==> Kept(patterns, "agent") && Kept(patterns, t.agent.value))
  }

  predicate PlanKept(patterns: seq<string>, p: Plan)
    requires Usable(patterns)
  {
    && Kept(patterns, "revision") && Kept(patterns, "tasks") && Kept(patterns, "title") && Kept(patterns, p.title)
    && forall k | 0 <= k < |p.tasks| :: TaskKept(patterns, p.tasks[k])
  }

  lemma FieldsArePlain(key: string)
    requires key in {"revision", "tasks", "title", "error", "id", "status", "note", "agent"}
    ensures !Contains(key, MARK)
  {
  }

  lemma TaskEntriesAscend(t: Task)
    ensures WellFormed(TaskValue(t)) && TaskValue(t).Object? && Ordered(TaskValue(t).entries)
  {
    TaskValueIsWellFormed(t);
  }

  lemma GetMasked(patterns: seq<string>, v: Value, key: string)
    requires Usable(patterns) && v.Object? && Ordered(v.entries) && !Contains(key, MARK)
    ensures Get(MaskValue(patterns, v), key) ==
            if !Kept(patterns, key) then None
            else match Get(v, key) case None => None case Some(x) => Some(MaskValue(patterns, x))
  {
    hide MaskEntries, MaskText;
    LookupMasked(patterns, v.entries, key);
  }

  lemma FieldMasked(patterns: seq<string>, v: Value, key: string)
    requires Usable(patterns) && v.Object? && Ordered(v.entries)
    requires key in {"revision", "tasks", "title", "error", "id", "status", "note", "agent"}
    ensures Get(MaskValue(patterns, v), key) ==
            if !Kept(patterns, key) then None
            else match Get(v, key) case None => None case Some(x) => Some(MaskValue(patterns, x))
  {
    hide MaskText, MaskValue, Kept, Get, Ordered, Contains, MARK;
    FieldsArePlain(key);
    GetMasked(patterns, v, key);
  }

  lemma MaskedTaskFields(patterns: seq<string>, t: Task)
    requires Usable(patterns)
    ensures var v := MaskValue(patterns, TaskValue(t));
            && Get(v, "id") == (if Kept(patterns, "id") then Some(String(MaskText(patterns, t.id))) else None)
            && Get(v, "title") == (if Kept(patterns, "title") then Some(String(MaskText(patterns, t.title))) else None)
            && Get(v, "status") == (if Kept(patterns, "status")
                                    then Some(String(MaskText(patterns, t.status))) else None)
            && Get(v, "note") == (if Kept(patterns, "note") then Some(String(MaskText(patterns, t.note))) else None)
            && Get(v, "agent") == (if Kept(patterns, "agent") && t.agent.Some?
                                   then Some(String(MaskText(patterns, t.agent.value))) else None)
  {
    TaskEntriesAscend(t);
    TaskFields(t);
    hide TaskValue, MaskText, Kept, Get, Ordered, Contains, MARK;
    FieldMasked(patterns, TaskValue(t), "id");
    FieldMasked(patterns, TaskValue(t), "title");
    FieldMasked(patterns, TaskValue(t), "status");
    FieldMasked(patterns, TaskValue(t), "note");
    FieldMasked(patterns, TaskValue(t), "agent");
  }

  /** A task comes back from its masked value exactly when masking keeps it. */
  lemma MaskedTaskReadsBack(patterns: seq<string>, t: Task)
    requires Usable(patterns) && ValidTask(t)
    ensures ParseTask(MaskValue(patterns, TaskValue(t))) == Ok(t) <==> TaskKept(patterns, t)
  {
    hide MaskValue, TaskValue, MaskText, Required, SingleLine, IsId, IsStatus, Get;
    MaskedTaskFields(patterns, t);
    EmptyIsKept(patterns);
  }

  function MaskedTasks(patterns: seq<string>, tasks: seq<Task>): (values: seq<Value>)
    requires Usable(patterns)
    ensures |values| == |tasks| && forall k | 0 <= k < |tasks| :: values[k] == MaskValue(patterns, TaskValue(tasks[k]))
  {
    seq(|tasks|, k requires 0 <= k < |tasks| => MaskValue(patterns, TaskValue(tasks[k])))
  }

  lemma {:induction false} MaskedTasksReadBack(patterns: seq<string>, tasks: seq<Task>)
    requires Usable(patterns) && ValidTasks(tasks)
    ensures TasksOf(MaskedTasks(patterns, tasks)) == Ok(tasks) <==>
            forall k | 0 <= k < |tasks| :: TaskKept(patterns, tasks[k])
    decreases |tasks|
  {
    hide ParseTask, TaskValue, ValidTask, MaskValue, TaskKept;
    if tasks != [] {
      var n := |tasks| - 1;
      var earlier, last := tasks[..n], tasks[n];
      MaskedTasksReadBack(patterns, earlier);
      MaskedTaskReadsBack(patterns, last);
      assert MaskedTasks(patterns, tasks)[..n] == MaskedTasks(patterns, earlier);
      assert tasks == earlier + [last];
      if TasksOf(MaskedTasks(patterns, tasks)) == Ok(tasks) {
        assert TasksOf(MaskedTasks(patterns, earlier)).value == earlier;
      }
    }
  }

  lemma PlanEntriesAscend(p: Plan)
    ensures PlanValue(p).Object? && Ordered(PlanValue(p).entries)
  {
    PlanValueIsWellFormed(p);
    hide Less, Digits, TaskValues;
  }

  lemma MaskedPlanFields(patterns: seq<string>, p: Plan)
    requires Usable(patterns)
    ensures var v := MaskValue(patterns, PlanValue(p));
            && Get(v, "error") == None
            && Get(v, "revision") == (if Kept(patterns, "revision") then Some(Number(Digits(p.revision))) else None)
            && Get(v, "tasks") == (if Kept(patterns, "tasks")
                                   then Some(Array(MaskedTasks(patterns, p.tasks))) else None)
            && Get(v, "title") == (if Kept(patterns, "title") then Some(String(MaskText(patterns, p.title))) else None)
  {
    PlanEntriesAscend(p);
    PlanFields(p);
    MaskedArray(patterns, p.tasks);
    MaskedScalars(patterns, p.title, Digits(p.revision));
    hide PlanValue, MaskText, MaskValue, Kept, Get, Ordered, Contains, MARK, Digits, MaskedTasks, TaskValues, Usable;
    FieldMasked(patterns, PlanValue(p), "revision");
    FieldMasked(patterns, PlanValue(p), "tasks");
    FieldMasked(patterns, PlanValue(p), "title");
    FieldMasked(patterns, PlanValue(p), "error");
  }

  lemma MaskedScalars(patterns: seq<string>, text: string, digits: string)
    requires Usable(patterns)
    ensures MaskValue(patterns, String(text)) == String(MaskText(patterns, text))
    ensures MaskValue(patterns, Number(digits)) == Number(digits)
  {
    hide MaskText;
  }

  lemma MaskedArray(patterns: seq<string>, tasks: seq<Task>)
    requires Usable(patterns)
    ensures MaskValue(patterns, Array(TaskValues(tasks))) == Array(MaskedTasks(patterns, tasks))
  {
    hide TaskValue;
  }

  /** A plan comes back from its masked value exactly when masking keeps it. */
  lemma MaskedPlanReadsBack(patterns: seq<string>, p: Plan)
    requires Usable(patterns) && ValidPlan(p) && p.revision > 0
    ensures PlanIn(Masked(patterns, PlanValue(p))) == Some(p) <==> PlanKept(patterns, p)
  {
    hide MaskValue, PlanValue, MaskText, Required, Digits, MaskedTasks, ValidTasks, TaskKept, TasksOf, Get, Whole;
    if patterns == [] {
      PlanReadsBack(p);
      PlanFields(p);
      NothingMasked(p);
    } else {
      MaskedPlanFields(patterns, p);
      MaskedTasksReadBack(patterns, p.tasks);
      WholeReadsBack(p.revision);
      var v := MaskValue(patterns, PlanValue(p));
      assert TasksIn(v) == Ok(p.tasks) <==>
             Kept(patterns, "tasks") && forall k | 0 <= k < |p.tasks| :: TaskKept(patterns, p.tasks[k]);
      assert Whole(Get(v, "revision")) == Some(p.revision) <==> Kept(patterns, "revision") by {
        NoNumber();
      }
      assert RequiredText(v, "title", 200) == Ok(p.title) <==> Kept(patterns, "title") && Kept(patterns, p.title);
    }
  }

  lemma NoNumber()
    ensures Whole(None) == None
  {
  }

  lemma NothingMasked(p: Plan)
    ensures PlanKept([], p)
  {
  }

  // ----- What an identifier that is masked does

  lemma MarkIsNoId(text: string)
    requires Contains(text, MARK)
    ensures !IsId(text)
  {
    var k := MarkHasBracket(text);
  }

  lemma StatusIsPlain(status: string)
    requires IsStatus(status)
    ensures !Contains(status, MARK)
  {
    assert forall k | 0 <= k < |status| :: status[k] != '[';
    if Contains(status, MARK) {
      var k := MarkHasBracket(status);
    }
  }

  lemma MarkHasBracket(text: string) returns (k: nat)
    requires Contains(text, MARK)
    ensures k < |text| && text[k] == '['
  {
    k :| k <= |text| && OccursAt(text, MARK, k);
    MarkIsText();
    assert text[k..k + |MARK|][0] == text[k];
  }

  /** The task is not read back at all. */
  lemma MaskedTaskIsRefused(patterns: seq<string>, t: Task)
    requires Usable(patterns) && (!Kept(patterns, t.id) || !Kept(patterns, t.status))
    ensures ParseTask(MaskValue(patterns, TaskValue(t))).Err?
  {
    hide MaskValue, TaskValue, MaskText, Required, SingleLine, IsId, IsStatus, Get, Contains, MARK;
    MaskedTaskFields(patterns, t);
    if !Kept(patterns, t.id) {
      MaskedIsMarked(patterns, t.id);
      MarkIsNoId(MaskText(patterns, t.id));
    } else {
      MaskedIsMarked(patterns, t.status);
      if IsStatus(MaskText(patterns, t.status)) {
        StatusIsPlain(MaskText(patterns, t.status));
      }
    }
  }

  lemma {:induction false} OneIsRefused(items: seq<Value>, k: nat)
    requires k < |items| && ParseTask(items[k]).Err?
    ensures TasksOf(items).Err?
    decreases |items|
  {
    hide ParseTask;
    if k < |items| - 1 {
      OneIsRefused(items[..|items| - 1], k);
    }
  }

  /** A secret inside the identifier or the status of a task hides the whole
      plan. */
  lemma MaskedIdHidesPlan(patterns: seq<string>, p: Plan, k: nat, i: nat)
    requires Usable(patterns) && k < |p.tasks| && i < |patterns|
    requires ValidTask(p.tasks[k])
    requires Contains(p.tasks[k].id, patterns[i]) || Contains(p.tasks[k].status, patterns[i])
    ensures PlanIn(Masked(patterns, PlanValue(p))) == None
  {
    hide MaskValue, PlanValue, MaskText, Required, Digits, ValidTask, TasksOf, Get, Contains, MARK, ParseTask, IsId,
         IsStatus;
    var t := p.tasks[k];
    MaskedPlanFields(patterns, p);
    assert IsId(t.id) && IsStatus(t.status) by {
      TaskParts(t);
    }
    if Contains(t.id, MARK) {
      MarkIsNoId(t.id);
    } else {
      KeptMeans(patterns, t.id);
    }
    StatusIsPlain(t.status);
    KeptMeans(patterns, t.status);
    MaskedTaskIsRefused(patterns, t);
    OneIsRefused(MaskedTasks(patterns, p.tasks), k);
  }

  lemma TaskParts(t: Task)
    requires ValidTask(t)
    ensures IsId(t.id) && IsStatus(t.status)
  {
    hide Required, SingleLine, IsId, IsStatus;
  }

  // ----- What has to be checked

  function TaskTexts(t: Task): set<string> {
    {"id", t.id, "title", t.title, "status", t.status}
    + (if t.note != "" then {"note", t.note} else {})
    + (if t.agent.Some? then {"agent", t.agent.value} else {})
  }

  /** The texts of a plan and the names of the fields it cannot do without. */
  function PlanTexts(p: Plan): set<string> {
    {"revision", "tasks", "title", p.title} + set k, text | 0 <= k < |p.tasks| && text in TaskTexts(p.tasks[k]) :: text
  }

  lemma KeptTexts(patterns: seq<string>, p: Plan)
    requires Usable(patterns)
    ensures PlanKept(patterns, p) <==> forall text | text in PlanTexts(p) :: Kept(patterns, text)
  {
    hide MaskText, Kept;
    if forall text | text in PlanTexts(p) :: Kept(patterns, text) {
      forall k | 0 <= k < |p.tasks|
        ensures TaskKept(patterns, p.tasks[k])
      {
        assert forall text | text in TaskTexts(p.tasks[k]) :: text in PlanTexts(p);
      }
    }
  }

  /** When no text of it contains the mark, a plan is kept exactly when no
      pattern occurs in one. */
  lemma PlanKeptMeans(patterns: seq<string>, p: Plan)
    requires Usable(patterns) && forall text | text in PlanTexts(p) :: !Contains(text, MARK)
    ensures PlanKept(patterns, p) <==>
            forall text, k | text in PlanTexts(p) && 0 <= k < |patterns| :: !Contains(text, patterns[k])
  {
    hide PlanTexts, PlanKept, MaskText, Kept, Contains, MARK;
    KeptTexts(patterns, p);
    forall text | text in PlanTexts(p)
      ensures Kept(patterns, text) <==> forall k | 0 <= k < |patterns| :: !Contains(text, patterns[k])
    {
      KeptMeans(patterns, text);
    }
  }

  /** A plan whose value is left alone is kept. */
  lemma UnchangedIsKept(patterns: seq<string>, p: Plan)
    requires Usable(patterns) && ValidPlan(p) && p.revision > 0
    requires Masked(patterns, PlanValue(p)) == PlanValue(p)
    ensures PlanKept(patterns, p)
  {
    hide Masked, PlanValue, PlanKept, ParsePlan, ValidPlan;
    PlanReadsBack(p);
    PlanFields(p);
    MaskedPlanReadsBack(patterns, p);
  }

  /** But a kept one may change: with the secret `note` the name of an empty
      note is masked, and no note is read as an empty one. */
  lemma NoteNameIsMasked(p: Plan)
    requires p.tasks != [] && p.tasks[0].note == ""
    requires forall text | text in PlanTexts(p) :: !Contains(text, MARK) && !Contains(text, "note")
    ensures var patterns := ["note", "note"];
            PlanKept(patterns, p) && Masked(patterns, PlanValue(p)) != PlanValue(p)
  {
    var patterns := ["note", "note"];
    hide PlanTexts, PlanKept, MaskText, MaskValue, PlanValue, TaskValue, Contains, MARK, Get, TaskTexts;
    PlanKeptMeans(patterns, p);
    FieldsArePlain("note");
    assert Contains("note", "note") by {
      ContainsAtFront("note", "note");
    }
    KeptMeans(patterns, "note");
    assert patterns[0] == "note" && !Kept(patterns, "note");
    var t := p.tasks[0];
    MaskedTaskFields(patterns, t);
    TaskFields(t);
    PlanFields(p);
    MaskedPlanFields(patterns, p);
    var masked, plain := MaskedTasks(patterns, p.tasks), TaskValues(p.tasks);
    assert Get(masked[0], "note") != Get(plain[0], "note");
    hide Kept;
    assert Get(Masked(patterns, PlanValue(p)), "tasks") != Some(Array(plain));
  }
}
