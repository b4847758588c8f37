/**
  Prompts submitted while the agent works. Ordinary messages join the running
  turn once the saved input no longer holds them; local commands wait for the
  interface. One lock orders every change, so each change is one step.
 */
module Inbox {
  import opened Strings
  import opened Wrappers

  const LIMIT: nat := 8

  datatype Prompt = Prompt(text: string, attachments: seq<string>)

  /** Local commands start with a slash and have no attachments. */
  predicate Ordinary(prompt: Prompt) {
    prompt.attachments != [] || !("/" <= TrimStart(prompt.text))
  }

  type Entry = (nat, Prompt)

  function Ids(items: seq<Entry>): (ids: seq<nat>)
    ensures |ids| == |items| && forall k | 0 <= k < |items| :: ids[k] == items[k].0
  {
    seq(|items|, k requires 0 <= k < |items| => items[k].0)
  }

  function Prompts(items: seq<Entry>): (prompts: seq<Prompt>)
    ensures |prompts| == |items| && forall k | 0 <= k < |items| :: prompts[k] == items[k].1
  {
    seq(|items|, k requires 0 <= k < |items| => items[k].1)
  }

  /** The entries from the front whose identifiers are below `recorded`. */
  function RecordedPart(items: seq<Entry>, recorded: nat): seq<Entry> {
    if items == [] || items[0].0 >= recorded then []
    else [items[0]] + RecordedPart(items[1..], recorded)
  }

  function OnlyOrdinary(items: seq<Entry>): seq<Entry> {
    if items == [] then []
    else (if Ordinary(items[0].1) then [items[0]] else []) + OnlyOrdinary(items[1..])
  }

  function Deliverable(items: seq<Entry>, recorded: nat): seq<nat> {
    Ids(OnlyOrdinary(RecordedPart(items, recorded)))
  }

  /** The entries whose identifiers are, or are not, among `ids`. */
  function Keep(items: seq<Entry>, ids: seq<nat>, among: bool): seq<Entry> {
    if items == [] then []
    else (if (items[0].0 in ids) == among then [items[0]] else []) + Keep(items[1..], ids, among)
  }

  datatype State = State(items: seq<Entry>, next: nat, recorded: nat, unacknowledged: seq<Prompt>)

  /** What the lock guards. */
  class Entries {
    var items: seq<Entry>
    var next: nat
    var recorded: nat
    var unacknowledged: seq<Prompt>

    constructor ()
      ensures View() == EMPTY
    {
      items, next, recorded, unacknowledged := [], 0, 0, [];
    }

    ghost function View(): State
      reads this
    {
      State(items, next, recorded, unacknowledged)
    }

    method Push(prompt: Prompt) returns (id: Option<nat>)
      modifies this
      ensures View() == After(old(View()), Step.Push(prompt))
      ensures id == if |old(items)| < LIMIT then Some(old(next)) else None
    {
      if |items| >= LIMIT {
        return None;
      }
      id := Some(next);
      items := items + [(next, prompt)];
      next := next + 1;
    }

    method PopFront() returns (prompt: Option<Prompt>)
      modifies this
      ensures View() == After(old(View()), Step.PopFront)
      ensures prompt == if old(items) == [] then None else Some(old(items)[0].1)
    {
      if items == [] {
        return None;
      }
      prompt := Some(items[0].1);
      items := items[1..];
    }

    method Drain() returns (prompts: seq<Prompt>)
      modifies this
      ensures View() == After(old(View()), Step.Drain) && prompts == Prompts(old(items))
    {
      prompts := Prompts(items);
      items := [];
    }

    method Record() returns (prompts: seq<Prompt>)
      modifies this
      ensures View() == After(old(View()), Step.Record) && prompts == Prompts(items)
    {
      recorded := next;
      prompts := Prompts(items);
    }

    method Acknowledge(count: nat)
      modifies this
      ensures View() == After(old(View()), Step.Acknowledge(count))
    {
      var shown := if count <= |unacknowledged| then count else |unacknowledged|;
      unacknowledged := unacknowledged[shown..];
    }

    method Unacknowledged() returns (prompts: seq<Prompt>)
      modifies this
      ensures View() == After(old(View()), Step.Unacknowledged) && prompts == old(unacknowledged)
    {
      prompts := unacknowledged;
      unacknowledged := [];
    }

    /** What `accept` hands to its caller to save. */
    method Selected() returns (prompts: seq<Prompt>, remaining: seq<Prompt>)
      ensures prompts == Prompts(Chosen(View())) && remaining == Prompts(Left(View()))
    {
      var ids := Deliverable(items, recorded);
      prompts, remaining := Prompts(Keep(items, ids, true)), Prompts(Keep(items, ids, false));
    }

    /** What `accept` does once the caller has saved the selected messages. */
    method Commit()
      modifies this
      ensures View() == After(old(View()), Step.Accept(true))
    {
      var ids := Deliverable(items, recorded);
      unacknowledged := unacknowledged + Prompts(Keep(items, ids, true));
      items := Keep(items, ids, false);
    }
  }

  // ----- Steps on values

  const EMPTY: State := State([], 0, 0, [])

  datatype Step =
    | Push(prompt: Prompt)
    | PopFront
    | Drain
    | Record
    | Acknowledge(count: nat)
    | Unacknowledged
    | Accept(saved: bool)

  function Chosen(s: State): seq<Entry> { Keep(s.items, Deliverable(s.items, s.recorded), true) }

  function Left(s: State): seq<Entry> { Keep(s.items, Deliverable(s.items, s.recorded), false) }

  /** A save that fails leaves every message pending. */
  function After(s: State, step: Step): State {
    match step
    case Push(prompt) =>
      if |s.items| >= LIMIT then s else s.(items := s.items + [(s.next, prompt)], next := s.next + 1)
    case PopFront => if s.items == [] then s else s.(items := s.items[1..])
    case Drain => s.(items := [])
    case Record => s.(recorded := s.next)
    case Acknowledge(count) =>
      s.(unacknowledged := s.unacknowledged[if count <= |s.unacknowledged| then count else |s.unacknowledged|..])
    case Unacknowledged => s.(unacknowledged := [])
    case Accept(saved) =>
      if saved then s.(items := Left(s), unacknowledged := s.unacknowledged + Prompts(Chosen(s))) else s
  }

  // ----- Whole runs

  /** A run: what was pushed, and where each identifier went, in order. */
  datatype Run = Run(
    state: State,
    pushed: seq<Prompt>,
    accepted: seq<nat>,
    popped: seq<nat>,
    drained: seq<nat>,
    shown: seq<Prompt>
  )

  const START: Run := Run(EMPTY, [], [], [], [], [])

  function Advance(r: Run, step: Step): Run {
    var s := r.state;
    var next := r.(state := After(s, step));
    match step
    case Push(prompt) => if |s.items| >= LIMIT then next else next.(pushed := r.pushed + [prompt])
    case PopFront => if s.items == [] then next else next.(popped := r.popped + [s.items[0].0])
    case Drain => next.(drained := r.drained + Ids(s.items))
    case Accept(saved) => if saved then next.(accepted := r.accepted + Ids(Chosen(s))) else next
    case Acknowledge(count) =>
      next.(shown := r.shown + s.unacknowledged[..if count <= |s.unacknowledged| then count else |s.unacknowledged|])
    case Unacknowledged => next.(shown := r.shown + s.unacknowledged)
    case Record => next
  }

  function RunOf(steps: seq<Step>): Run {
    if steps == [] then START else Advance(RunOf(steps[..|steps| - 1]), steps[|steps| - 1])
  }

  /** How often an identifier occurs. */
  ghost function Times(ids: seq<nat>, id: nat): nat { multiset(ids)[id] }

  /** How often an identifier occurs among the pending, accepted, popped and
      drained entries together. */
  ghost function Places(r: Run, id: nat): nat {
    Times(Ids(r.state.items), id) + Times(r.accepted, id) + Times(r.popped, id) + Times(r.drained, id)
  }

  ghost predicate Increasing(ids: seq<nat>) {
    forall j, k | 0 <= j < k < |ids| :: ids[j] < ids[k]
  }

  ghost predicate Bounded(ids: seq<nat>, limit: nat) {
    forall k | 0 <= k < |ids| :: ids[k] < limit
  }

  /** Pending entries in submission order, each with the prompt pushed for it. */
  ghost predicate Ordered(s: State, pushed: seq<Prompt>) {
    && |s.items| <= LIMIT && s.recorded <= s.next == |pushed|
    && Increasing(Ids(s.items)) && Bounded(Ids(s.items), s.next)
    && forall k | 0 <= k < |s.items| :: s.items[k].0 < |pushed| && s.items[k].1 == pushed[s.items[k].0]
  }

  /** No ordinary message pending was overtaken by a later one. */
  ghost predicate NoneOvertaken(r: Run) {
    forall k | 0 <= k < |r.state.items| :: Ordinary(r.state.items[k].1) ==> Bounded(r.accepted, r.state.items[k].0)
  }

  ghost predicate AcceptedInOrder(r: Run) {
    && Increasing(r.accepted)
    && Bounded(r.accepted, r.state.recorded)
    && forall k | 0 <= k < |r.accepted| :: r.accepted[k] < |r.pushed| && Ordinary(r.pushed[r.accepted[k]])
  }

  /** The accepted messages, in the order they were accepted. */
  function AcceptedPrompts(r: Run): (prompts: seq<Prompt>)
    requires Bounded(r.accepted, |r.pushed|)
    ensures |prompts| == |r.accepted|
    ensures forall k | 0 <= k < |r.accepted| :: prompts[k] == r.pushed[r.accepted[k]]
  {
    seq(|r.accepted|, k requires 0 <= k < |r.accepted| => r.pushed[r.accepted[k]])
  }

  ghost predicate Sound(r: Run) {
    && Ordered(r.state, r.pushed) && AcceptedInOrder(r) && NoneOvertaken(r)
    && (forall id: nat :: Places(r, id) == if id < r.state.next then 1 else 0)
    && Bounded(r.accepted, |r.pushed|)
    && r.shown + r.state.unacknowledged == AcceptedPrompts(r)
  }

  // ----- What an acceptance selects

  lemma {:induction false} KeepMeans(items: seq<Entry>, ids: seq<nat>, among: bool, e: Entry)
    ensures e in Keep(items, ids, among) <==> e in items && (e.0 in ids) == among
  {
    if items != [] {
      KeepMeans(items[1..], ids, among, e);
      assert e in items <==> e == items[0] || e in items[1..];
    }
  }

  lemma {:induction false} RecordedPartMeans(items: seq<Entry>, recorded: nat, e: Entry)
    requires Increasing(Ids(items))
    ensures e in RecordedPart(items, recorded) <==> e in items && e.0 < recorded
  {
    if items != [] {
      assert Ids(items[1..]) == Ids(items)[1..];
      RecordedPartMeans(items[1..], recorded, e);
      assert e in items <==> e == items[0] || e in items[1..];
      if e in items {
        var k :| 0 <= k < |items| && items[k] == e;
        assert Ids(items)[0] <= Ids(items)[k];
      }
    }
  }

  lemma {:induction false} OnlyOrdinaryMeans(items: seq<Entry>, e: Entry)
    ensures e in OnlyOrdinary(items) <==> e in items && Ordinary(e.1)
  {
    if items != [] {
      OnlyOrdinaryMeans(items[1..], e);
      assert e in items <==> e == items[0] || e in items[1..];
    }
  }

  lemma OneEntryPerId(items: seq<Entry>, e: Entry, f: Entry)
    requires Increasing(Ids(items)) && e in items && f in items && e.0 == f.0
    ensures e == f
  {
    var j :| 0 <= j < |items| && items[j] == e;
    var k :| 0 <= k < |items| && items[k] == f;
    assert Ids(items)[j] == Ids(items)[k];
  }

  /** A prompt with attachments, or one that does not start with a slash. */
  lemma OrdinaryMeans(prompt: Prompt)
    ensures Ordinary(prompt) <==>
            || prompt.attachments != [] || TrimStart(prompt.text) == []
            || TrimStart(prompt.text)[0] != '/'
  {
  }

  /** Exactly the recorded ordinary messages are deliverable. */
  lemma DeliverableMeans(items: seq<Entry>, recorded: nat, e: Entry)
    requires Increasing(Ids(items)) && e in items
    ensures e.0 in Deliverable(items, recorded) <==>
            e.0 < recorded
            && (e.1.attachments != [] || TrimStart(e.1.text) == [] || TrimStart(e.1.text)[0] != '/')
  {
    hide RecordedPart, OnlyOrdinary, Ordinary, TrimStart;
    OrdinaryMeans(e.1);
    var part := RecordedPart(items, recorded);
    var chosen := OnlyOrdinary(part);
    RecordedPartMeans(items, recorded, e);
    OnlyOrdinaryMeans(part, e);
    if e in chosen {
      var k :| 0 <= k < |chosen| && chosen[k] == e;
      assert Ids(chosen)[k] == e.0;
    }
    if e.0 in Ids(chosen) {
      var k :| 0 <= k < |chosen| && Ids(chosen)[k] == e.0;
      OnlyOrdinaryMeans(part, chosen[k]);
      RecordedPartMeans(items, recorded, chosen[k]);
      OneEntryPerId(items, e, chosen[k]);
    }
  }

  lemma {:induction false} KeepInOrder(items: seq<Entry>, ids: seq<nat>, among: bool)
    requires Increasing(Ids(items))
    ensures Increasing(Ids(Keep(items, ids, among)))
    ensures |Keep(items, ids, among)| <= |items|
  {
    if items != [] {
      assert Ids(items[1..]) == Ids(items)[1..];
      KeepInOrder(items[1..], ids, among);
      var rest := Keep(items[1..], ids, among);
      forall k | 0 <= k < |rest|
        ensures items[0].0 < Ids(rest)[k]
      {
        KeepMeans(items[1..], ids, among, rest[k]);
        var j :| 0 <= j < |items[1..]| && items[1..][j] == rest[k];
        assert Ids(items)[0] < Ids(items)[j + 1];
      }
      assert Ids([items[0]] + rest) == [items[0].0] + Ids(rest);
      assert Keep(items, ids, among) == [items[0]] + rest || Keep(items, ids, among) == rest;
    }
  }

  lemma TimesSum(a: seq<nat>, b: seq<nat>, id: nat)
    ensures Times(a + b, id) == Times(a, id) + Times(b, id)
  {
  }

  lemma FirstId(e: Entry, rest: seq<Entry>, id: nat)
    ensures Times(Ids([e] + rest), id) == Times([e.0], id) + Times(Ids(rest), id)
  {
    assert Ids([e] + rest) == [e.0] + Ids(rest);
    TimesSum([e.0], Ids(rest), id);
  }

  lemma {:induction false} KeepSplits(items: seq<Entry>, ids: seq<nat>, id: nat)
    ensures Times(Ids(items), id) == Times(Ids(Keep(items, ids, true)), id) + Times(Ids(Keep(items, ids, false)), id)
  {
    hide Ids, Times;
    if items != [] {
      var first, rest := items[0], items[1..];
      KeepSplits(rest, ids, id);
      FirstId(first, rest, id);
      FirstId(first, Keep(rest, ids, true), id);
      FirstId(first, Keep(rest, ids, false), id);
      assert items == [first] + rest;
      assert [] + Keep(rest, ids, true) == Keep(rest, ids, true);
      assert [] + Keep(rest, ids, false) == Keep(rest, ids, false);
    } else {
      assert Keep(items, ids, true) == [];
      NoTimes(id);
    }
  }

  lemma NoTimes(id: nat)
    ensures Times(Ids([]), id) == 0
  {
    assert Ids([]) == [];
  }

  /** An acceptance takes exactly the ordinary messages the saved input no
      longer holds, and leaves exactly the others, both in submission order. */
  lemma AcceptanceSelects(s: State, e: Entry)
    requires Increasing(Ids(s.items))
    ensures e in Chosen(s) <==> e in s.items && e.0 < s.recorded && Ordinary(e.1)
    ensures e in Left(s) <==> e in s.items && !(e.0 < s.recorded && Ordinary(e.1))
    ensures Increasing(Ids(Chosen(s))) && Increasing(Ids(Left(s))) && |Left(s)| <= |s.items|
  {
    hide Keep, Deliverable, Ordinary;
    var ids := Deliverable(s.items, s.recorded);
    KeepMeans(s.items, ids, true, e);
    KeepMeans(s.items, ids, false, e);
    KeepInOrder(s.items, ids, true);
    KeepInOrder(s.items, ids, false);
    if e in s.items {
      DeliverableMeans(s.items, s.recorded, e);
      OrdinaryMeans(e.1);
    }
  }

  // ----- What every run keeps

  lemma AcceptKeepsOrder(r: Run)
    requires Ordered(r.state, r.pushed)
    ensures Ordered(After(r.state, Accept(true)), r.pushed)
  {
    hide Ordinary, Chosen, Left;
    var s := r.state;
    var left := Left(s);
    AcceptanceSelects(s, (0, Prompt("", [])));
    forall k | 0 <= k < |left|
      ensures left[k].0 < |r.pushed| && left[k].1 == r.pushed[left[k].0] && Ids(left)[k] < s.next
    {
      AcceptanceSelects(s, left[k]);
      var j :| 0 <= j < |s.items| && s.items[j] == left[k];
      assert Ids(s.items)[j] < s.next;
    }
  }

  lemma StepKeepsOrder(r: Run, step: Step)
    requires Ordered(r.state, r.pushed)
    ensures Ordered(Advance(r, step).state, Advance(r, step).pushed)
  {
    hide Ordinary, Chosen, Left;
    if step == Accept(true) {
      AcceptKeepsOrder(r);
    }
    if step.PopFront? && r.state.items != [] {
      assert Ids(r.state.items[1..]) == Ids(r.state.items)[1..];
    }
  }

  /** Each step moves identifiers from one place to another; a push adds one. */
  lemma StepKeepsPlaces(r: Run, step: Step, id: nat)
    ensures Places(Advance(r, step), id) ==
            Places(r, id) + if step.Push? && |r.state.items| < LIMIT && id == r.state.next then 1 else 0
  {
    hide Ids, Times, Deliverable;
    var s := r.state;
    match step {
      case Push(prompt) =>
        LastId(s.items, (s.next, prompt), id);
      case PopFront =>
        if s.items != [] {
          FirstId(s.items[0], s.items[1..], id);
          assert s.items == [s.items[0]] + s.items[1..];
          TimesSum(r.popped, [s.items[0].0], id);
        }
      case Drain =>
        TimesSum(r.drained, Ids(s.items), id);
        NoTimes(id);
      case Accept(saved) =>
        KeepSplits(s.items, Deliverable(s.items, s.recorded), id);
        TimesSum(r.accepted, Ids(Chosen(s)), id);
      case _ =>
    }
  }

  lemma LastId(items: seq<Entry>, e: Entry, id: nat)
    ensures Times(Ids(items + [e]), id) == Times(Ids(items), id) + if id == e.0 then 1 else 0
  {
    assert Ids(items + [e]) == Ids(items) + [e.0];
    TimesSum(Ids(items), [e.0], id);
  }

  /** Whatever an acceptance takes comes after everything accepted before. */
  lemma AcceptInOrder(r: Run)
    requires Ordered(r.state, r.pushed) && AcceptedInOrder(r) && NoneOvertaken(r)
    ensures AcceptedInOrder(Advance(r, Accept(true))) && NoneOvertaken(Advance(r, Accept(true)))
  {
    hide Ordinary, Chosen, Left;
    var s := r.state;
    var chosen, left := Chosen(s), Left(s);
    AcceptanceSelects(s, (0, Prompt("", [])));
    forall k | 0 <= k < |chosen|
      ensures Ids(chosen)[k] < s.recorded && chosen[k].0 < |r.pushed| && Ordinary(r.pushed[chosen[k].0])
      ensures Bounded(r.accepted, Ids(chosen)[k])
    {
      AcceptanceSelects(s, chosen[k]);
      var j :| 0 <= j < |s.items| && s.items[j] == chosen[k];
    }
    forall k | 0 <= k < |left| && Ordinary(left[k].1)
      ensures left[k].0 >= s.recorded
    {
      AcceptanceSelects(s, left[k]);
    }
  }

  lemma StepKeepsAccepted(r: Run, step: Step)
    requires Ordered(r.state, r.pushed) && AcceptedInOrder(r) && NoneOvertaken(r)
    ensures AcceptedInOrder(Advance(r, step)) && NoneOvertaken(Advance(r, step))
  {
    hide Ordinary, Chosen, Left;
    if step == Accept(true) {
      AcceptInOrder(r);
    }
  }

  lemma StepKeepsShown(r: Run, step: Step)
    requires Ordered(r.state, r.pushed) && AcceptedInOrder(r) && Bounded(r.accepted, |r.pushed|)
    requires r.shown + r.state.unacknowledged == AcceptedPrompts(r)
    requires Ordered(Advance(r, step).state, Advance(r, step).pushed) && AcceptedInOrder(Advance(r, step))
    ensures Bounded(Advance(r, step).accepted, |Advance(r, step).pushed|)
    ensures Advance(r, step).shown + Advance(r, step).state.unacknowledged == AcceptedPrompts(Advance(r, step))
  {
    hide Ordinary, Chosen, Left, Ordered, AcceptedInOrder;
    var s, next := r.state, Advance(r, step);
    if step == Accept(true) {
      AcceptKeepsShown(r);
    } else {
      assert next.accepted == r.accepted && r.pushed <= next.pushed;
      SamePrompts(r, next);
      match step {
        case Acknowledge(count) =>
          Moved(r.shown, s.unacknowledged, if count <= |s.unacknowledged| then count else |s.unacknowledged|);
        case Unacknowledged =>
          Moved(r.shown, s.unacknowledged, |s.unacknowledged|);
        case _ =>
      }
    }
  }

  lemma SamePrompts(r: Run, next: Run)
    requires Bounded(r.accepted, |r.pushed|) && next.accepted == r.accepted && r.pushed <= next.pushed
    ensures Bounded(next.accepted, |next.pushed|) && AcceptedPrompts(next) == AcceptedPrompts(r)
  {
  }

  lemma Moved(shown: seq<Prompt>, waiting: seq<Prompt>, n: nat)
    requires n <= |waiting|
    ensures (shown + waiting[..n]) + waiting[n..] == shown + waiting
    ensures n == |waiting| ==> (shown + waiting) + [] == shown + waiting
  {
  }

  lemma AcceptKeepsShown(r: Run)
    requires Ordered(r.state, r.pushed) && Bounded(r.accepted, |r.pushed|)
    requires r.shown + r.state.unacknowledged == AcceptedPrompts(r)
    ensures var next := Advance(r, Accept(true));
            && Bounded(next.accepted, |next.pushed|)
            && next.shown + next.state.unacknowledged == AcceptedPrompts(next)
  {
    hide Ordinary, Chosen, Left;
    var s, chosen := r.state, Chosen(r.state);
    forall k | 0 <= k < |chosen|
      ensures chosen[k].0 < |r.pushed| && Prompts(chosen)[k] == r.pushed[chosen[k].0]
    {
      AcceptanceSelects(s, chosen[k]);
      var j :| 0 <= j < |s.items| && s.items[j] == chosen[k];
    }
    assert AcceptedPrompts(Advance(r, Accept(true))) == AcceptedPrompts(r) + Prompts(chosen);
  }

  /** After any run every prompt pushed is pending, accepted, popped or drained,
      in exactly one of them; the accepted ones are ordinary messages in the
      order they were submitted, and the interface has been given a prefix of
      them. */
  lemma {:induction false} EveryRunIsSound(steps: seq<Step>)
    ensures Sound(RunOf(steps))
    decreases |steps|
  {
    hide Ordered, AcceptedInOrder, NoneOvertaken, Places, AcceptedPrompts;
    if steps == [] {
      StartIsSound();
    } else {
      var step := steps[|steps| - 1];
      EveryRunIsSound(steps[..|steps| - 1]);
      StepIsSound(RunOf(steps[..|steps| - 1]), step);
    }
  }

  lemma StartIsSound()
    ensures Sound(START)
  {
    assert AcceptedPrompts(START) == [];
  }

  lemma StepIsSound(r: Run, step: Step)
    requires Sound(r)
    ensures Sound(Advance(r, step))
  {
    hide NoneOvertaken, Places, AcceptedPrompts, Ordinary, Chosen, Left;
    StepKeepsOrder(r, step);
    StepKeepsAccepted(r, step);
    StepKeepsShown(r, step);
    forall id: nat
      ensures Places(Advance(r, step), id) == if id < Advance(r, step).state.next then 1 else 0
    {
      StepKeepsPlaces(r, step, id);
    }
  }

}
