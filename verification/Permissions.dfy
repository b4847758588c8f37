/**
  The permissions of a conversation, shared by the agent and its collaborators.
  Every operation holds one lock, so each is one step of a shared state.
 */
module Permissions {
  import opened Wrappers

  datatype Level = Read | Workspace | Full

  datatype Kind = Reads | Edits | Runs

  /** What one call would touch; a multi-file edit lists its files. */
  datatype Access = Access(
    kind: Kind,
    target: string,
    place: Option<string>,
    outside: bool,
    identity: Option<string>,
    members: seq<Access>
  )

  /** A remembered approval of exactly the same access. */
  datatype Grant = Grant(kind: Kind, target: string, place: Option<string>, identity: Option<string>) {
    predicate Authorizes(needed: Grant) {
      && kind == needed.kind && place == needed.place
      && match (identity, needed.identity)
         case (Some(expected), Some(actual)) => expected == actual
         case (None, None) => target == needed.target
         case _ => false
    }
  }

  datatype Decision = Once | Remember | Deny

  datatype Verdict = Allow | Unavailable | Ask

  datatype Asked = Decided(decision: Decision) | Cancelled

  datatype Surface = NoSurface | Inline | Panel

  datatype Request = Request(id: nat, callId: string, agent: Option<string>, tool: string, access: Access)

  function GrantOf(a: Access): Grant { Grant(a.kind, a.target, a.place, a.identity) }

  function GrantsOfMembers(members: seq<Access>): seq<Grant> {
    if members == [] then []
    else (if members[0].outside then [GrantOf(members[0])] else []) + GrantsOfMembers(members[1..])
  }

  /** What this access needs remembered. */
  function Grants(a: Access): seq<Grant> {
    if a.members == [] then [GrantOf(a)] else GrantsOfMembers(a.members)
  }

  predicate Authorized(grants: seq<Grant>, needed: Grant) {
    exists k | 0 <= k < |grants| :: grants[k].Authorizes(needed)
  }

  function Assessed(level: Level, grants: seq<Grant>, a: Access): Verdict {
    match level
    case Full => Allow
    case Read => if a.kind == Reads && !a.outside then Allow else Unavailable
    case Workspace =>
      if !a.outside || forall k | 0 <= k < |Grants(a)| :: Authorized(grants, Grants(a)[k]) then Allow else Ask
  }

  // ----- What is allowed, in terms of the fields

  /** A remembered approval is one of this very access: same kind and place, and
      the same identity, or the same target when neither has one. */
  ghost predicate Covers(g: Grant, a: Access) {
    && g.kind == a.kind && g.place == a.place
    && (g.identity.Some? <==> a.identity.Some?)
    && (if a.identity.Some? then g.identity.value == a.identity.value else g.target == a.target)
  }

  ghost predicate Covered(grants: seq<Grant>, a: Access) { exists k | 0 <= k < |grants| :: Covers(grants[k], a) }

  /** Every file of a multi-file edit that lies outside is covered, and any other
      access itself. */
  ghost predicate AllCovered(grants: seq<Grant>, a: Access) {
    if a.members == [] then Covered(grants, a)
    else forall i | 0 <= i < |a.members| && a.members[i].outside :: Covered(grants, a.members[i])
  }

  lemma CoveredMeans(grants: seq<Grant>, a: Access)
    ensures Authorized(grants, GrantOf(a)) <==> Covered(grants, a)
  {
    forall k | 0 <= k < |grants|
      ensures grants[k].Authorizes(GrantOf(a)) <==> Covers(grants[k], a)
    {
    }
    hide Covers;
    if Covered(grants, a) {
      var k :| 0 <= k < |grants| && Covers(grants[k], a);
      assert grants[k].Authorizes(GrantOf(a));
    }
    if Authorized(grants, GrantOf(a)) {
      var k :| 0 <= k < |grants| && grants[k].Authorizes(GrantOf(a));
      assert Covers(grants[k], a);
    }
  }

  ghost predicate AllAuthorized(grants: seq<Grant>, needed: seq<Grant>) {
    forall k | 0 <= k < |needed| :: Authorized(grants, needed[k])
  }

  lemma AuthorizedBoth(grants: seq<Grant>, a: seq<Grant>, b: seq<Grant>)
    ensures AllAuthorized(grants, a + b) <==> AllAuthorized(grants, a) && AllAuthorized(grants, b)
  {
    hide Authorized;
    assert forall k | 0 <= k < |a| :: (a + b)[k] == a[k];
    assert forall k | 0 <= k < |b| :: (a + b)[|a| + k] == b[k];
  }

  lemma AuthorizedOne(grants: seq<Grant>, g: Grant)
    ensures AllAuthorized(grants, [g]) <==> Authorized(grants, g)
    ensures AllAuthorized(grants, [])
  {
    hide Authorized;
    assert [g][0] == g;
  }

  ghost predicate MembersAreCovered(grants: seq<Grant>, members: seq<Access>) {
    forall i | 0 <= i < |members| && members[i].outside :: Covered(grants, members[i])
  }

  lemma CoveredFirst(grants: seq<Grant>, members: seq<Access>)
    requires members != []
    ensures MembersAreCovered(grants, members) <==>
            (members[0].outside ==> Covered(grants, members[0])) && MembersAreCovered(grants, members[1..])
  {
    hide Covered;
    assert forall i | 0 < i < |members| :: members[i] == members[1..][i - 1];
  }

  lemma {:induction false} MembersCovered(grants: seq<Grant>, members: seq<Access>)
    ensures AllAuthorized(grants, GrantsOfMembers(members)) <==> MembersAreCovered(grants, members)
    decreases |members|
  {
    hide Authorized, Covered, AllAuthorized, MembersAreCovered;
    if members == [] {
      NoMembers(grants);
    } else {
      var first, rest := members[0], members[1..];
      MembersCovered(grants, rest);
      CoveredMeans(grants, first);
      AuthorizedOne(grants, GrantOf(first));
      CoveredFirst(grants, members);
      AuthorizedBoth(grants, if first.outside then [GrantOf(first)] else [], GrantsOfMembers(rest));
    }
  }

  lemma NoMembers(grants: seq<Grant>)
    ensures AllAuthorized(grants, GrantsOfMembers([])) && MembersAreCovered(grants, [])
  {
  }

  lemma AllCoveredMeans(grants: seq<Grant>, a: Access)
    ensures AllAuthorized(grants, Grants(a)) <==> AllCovered(grants, a)
  {
    hide Authorized, Covered, AllAuthorized;
    MembersCovered(grants, a.members);
    CoveredMeans(grants, a);
    AuthorizedOne(grants, GrantOf(a));
  }

  /** The verdict, on the fields of the access and of the remembered grants. */
  lemma AssessedMeans(level: Level, grants: seq<Grant>, a: Access)
    ensures Assessed(level, grants, a) == Allow <==>
            || level == Full
            || (level == Read && a.kind == Reads && !a.outside)
            || (level == Workspace && (!a.outside || AllCovered(grants, a)))
    ensures Assessed(level, grants, a) == Unavailable <==> level == Read && (a.kind != Reads || a.outside)
    ensures Assessed(level, grants, a) == Ask <==> level == Workspace && a.outside && !AllCovered(grants, a)
  {
    hide Authorized, Covered, AllCovered, Grants;
    AllCoveredMeans(grants, a);
  }

  // ----- The journal of a session

  datatype Event =
    | LevelSet(level: Level)
    | Requested(request: Request)
    | DecisionMade(callId: string, decision: Decision, remembered: Option<Grant>)
    | Granted(grant: Grant)
    | Revoked(grant: Grant)
    | Other

  function Include(grants: seq<Grant>, grant: Grant): seq<Grant> {
    if grant in grants then grants else grants + [grant]
  }

  function IncludeAll(grants: seq<Grant>, more: seq<Grant>): seq<Grant> {
    if more == [] then grants else Include(IncludeAll(grants, more[..|more| - 1]), more[|more| - 1])
  }

  function Without(grants: seq<Grant>, grant: Grant): (rest: seq<Grant>) {
    if grants == [] then []
    else
      var n := |grants| - 1;
      Without(grants[..n], grant) + if grants[n] == grant then [] else [grants[n]]
  }

  function Replayed(grants: seq<Grant>, event: Event): seq<Grant> {
    match event
    case Granted(grant) => Include(grants, grant)
    case DecisionMade(_, Remember, Some(grant)) => Include(grants, grant)
    case Revoked(grant) => Without(grants, grant)
    case _ => grants
  }

  /** The grants a journal still remembers. */
  function ReplayedGrants(events: seq<Event>): seq<Grant> {
    if events == [] then [] else Replayed(ReplayedGrants(events[..|events| - 1]), events[|events| - 1])
  }

  /** The last level a journal set. */
  function ReplayedLevel(events: seq<Event>): Option<Level> {
    if events == [] then None
    else
      match events[|events| - 1]
      case LevelSet(level) => Some(level)
      case _ => ReplayedLevel(events[..|events| - 1])
  }

  // ----- Steps

  datatype State = State(
    level: Level,
    default: Level,
    grants: seq<Grant>,
    queue: seq<Request>,
    decisions: map<nat, Decision>,
    next: nat,
    surface: Surface,
    bound: bool,
    events: seq<Event>
  )

  function IndexOf(queue: seq<Request>, id: nat): (index: Option<nat>)
    ensures index.Some? ==> index.value < |queue| && queue[index.value].id == id
    ensures index.Some? ==> forall k | 0 <= k < index.value :: queue[k].id != id
    ensures index.None? ==> forall k | 0 <= k < |queue| :: queue[k].id != id
  {
    if queue == [] then None
    else if queue[0].id == id then Some(0)
    else match IndexOf(queue[1..], id) case Some(k) => Some(k + 1) case None => None
  }

  function Remaining(queue: seq<Request>, id: nat): (rest: seq<Request>) {
    if queue == [] then []
    else
      var n := |queue| - 1;
      Remaining(queue[..n], id) + if queue[n].id == id then [] else [queue[n]]
  }

  function GrantEvents(grants: seq<Grant>): (events: seq<Event>)
    ensures |events| == |grants| && forall k | 0 <= k < |grants| :: events[k] == Granted(grants[k])
  {
    seq(|grants|, k requires 0 <= k < |grants| => Granted(grants[k]))
  }

  /** The main agent's decision itself; it carries the grant of a single access. */
  function OwnEvents(r: Request, decision: Decision): seq<Event> {
    var single := decision == Remember && r.access.members == [];
    if r.agent.None? then [DecisionMade(r.callId, decision, if single then Some(GrantOf(r.access)) else None)] else []
  }

  /** The grants that are saved one by one. */
  function SavedGrants(r: Request, decision: Decision): seq<Grant> {
    if decision == Remember && (r.agent.Some? || r.access.members != []) then Grants(r.access) else []
  }

  /** The events one decision appends, in order. */
  function DecisionEvents(r: Request, decision: Decision): seq<Event> {
    OwnEvents(r, decision) + GrantEvents(SavedGrants(r, decision))
  }

  /** What the state keeps of appending `events` when only `saved` of them can be
      saved. Without a session nothing is saved and nothing fails. */
  function Appended(s: State, events: seq<Event>, saved: nat): (r: (State, bool)) {
    if !s.bound then (s, true)
    else if saved >= |events| then (s.(events := s.events + events), true)
    else (s.(events := s.events + events[..saved]), false)
  }

  /** Appending two lists one after the other, the second only in part. */
  lemma AppendedParts(s: State, own: seq<Event>, more: seq<Event>, n: nat)
    requires n <= |more|
    ensures Appended(s, own + more, |own| + n) ==
            (if s.bound then s.(events := s.events + own + more[..n]) else s, !s.bound || n == |more|)
    ensures s.bound && own != [] ==> Appended(s, own + more, 0) == (s, false)
  {
    assert (own + more)[..|own| + n] == own + more[..n];
    assert s.events + (own + more[..n]) == s.events + own + more[..n];
    assert more[..|more|] == more && s.events + (own + more)[..0] == s.events;
  }

  /** Each step with what the environment decides: how many appends are saved,
      and whether the asking turn was cancelled. */
  datatype Step =
    | SetLevel(level: Level, saved: nat)
    | SetDefault(level: Level)
    | SetSurface(surface: Surface)
    | Begin(agent: Option<string>, callId: string, tool: string, access: Access, saved: nat)
    | Decide(id: nat, decision: Decision, saved: nat)
    | WaitOnce(id: nat, cancelled: bool)
    | Abandon(id: nat)
    | Revoke(grant: Grant, saved: nat)
    | Bind(session: Option<(seq<Event>, Option<Level>)>)

  predicate Shows(surface: Surface, agent: Option<string>) {
    surface == Panel || (surface == Inline && agent.None?)
  }

  function AfterBegin(
    s: State, agent: Option<string>, callId: string, tool: string, access: Access, saved: nat
  ): State {
    if !Shows(s.surface, agent) then s
    else
      var t := s.(next := s.next + 1);
      var request := Request(t.next, callId, agent, tool, access);
      // A collaborator's request is saved in its own session.
      if agent.Some? then if saved > 0 then t.(queue := t.queue + [request]) else t
      else
        var (u, ok) := Appended(t, [Requested(request)], saved);
        if ok then u.(queue := u.queue + [request]) else u
  }

  function AfterDecide(s: State, id: nat, decision: Decision, saved: nat): State {
    match IndexOf(s.queue, id)
    case None => s
    case Some(k) =>
      var r := s.queue[k];
      var (t, ok) := Appended(s, DecisionEvents(r, decision), saved);
      if !ok then t
      else
        t.(grants := if decision == Remember then IncludeAll(t.grants, Grants(r.access)) else t.grants,
           queue := t.queue[..k] + t.queue[k + 1..],
           decisions := t.decisions[id := decision])
  }

  function Position(grants: seq<Grant>, grant: Grant): (index: Option<nat>)
    ensures index.Some? ==> index.value < |grants| && grants[index.value] == grant
    ensures index.None? ==> grant !in grants
  {
    if grants == [] then None
    else if grants[0] == grant then Some(0)
    else match Position(grants[1..], grant) case Some(k) => Some(k + 1) case None => None
  }

  function AfterRevoke(s: State, grant: Grant, saved: nat): State {
    match Position(s.grants, grant)
    case None => s
    case Some(k) =>
      var (t, ok) := Appended(s, [Revoked(grant)], saved);
      if ok then t.(grants := t.grants[..k] + t.grants[k + 1..]) else t
  }

  /** One look of a waiting turn, with the answer it returns. */
  function AfterWait(s: State, id: nat, cancelled: bool): (State, Option<Asked>) {
    if id in s.decisions then (s.(decisions := s.decisions - {id}), Some(Decided(s.decisions[id])))
    else if cancelled || s.surface == NoSurface then (s.(queue := Remaining(s.queue, id)), Some(Cancelled))
    else (s, None)
  }

  function After(s: State, step: Step): State {
    match step
    case SetLevel(level, saved) =>
      if s.level == level then s
      else
        var (t, ok) := Appended(s, [LevelSet(level)], saved);
        if ok then t.(level := level) else t
    case SetDefault(level) => s.(default := level)
    case SetSurface(surface) => s.(surface := surface)
    case Begin(agent, callId, tool, access, saved) => AfterBegin(s, agent, callId, tool, access, saved)
    case Decide(id, decision, saved) => AfterDecide(s, id, decision, saved)
    case WaitOnce(id, cancelled) => AfterWait(s, id, cancelled).0
    case Abandon(id) => s.(queue := Remaining(s.queue, id), decisions := s.decisions - {id})
    case Revoke(grant, saved) => AfterRevoke(s, grant, saved)
    case Bind(session) =>
      var cleared := s.(queue := [], decisions := map[], bound := session.Some?);
      match session
      case None => cleared.(level := s.default, grants := [], events := [])
      case Some((events, start)) =>
        cleared.(level := LevelOf(events, start, s.default), grants := ReplayedGrants(events), events := events)
  }

  /** A level is set exactly when it can be saved, or nothing has to be. */
  lemma LevelIsSet(s: State, level: Level, saved: nat)
    ensures var t := After(s, SetLevel(level, saved));
            && t == s.(level := t.level, events := t.events)
            && t.level == (if !s.bound || saved > 0 then level else s.level)
            && t.events ==
               if s.bound && saved > 0 && s.level != level then s.events + [LevelSet(level)] else s.events
  {
    assert s.events + [LevelSet(level)][..0] == s.events;
  }

  /** The last level change, else the level it started at, else the default. */
  function LevelOf(events: seq<Event>, start: Option<Level>, default: Level): Level {
    match ReplayedLevel(events)
    case Some(level) => level
    case None => if start.Some? then start.value else default
  }

  // ----- What every interleaving keeps

  /** A run: the state, what was decided for each request, and the decisions
      handed to waiting turns, in order. */
  datatype Run = Run(state: State, decided: map<nat, Decision>, answers: seq<(nat, Decision)>)

  ghost predicate Start(s: State) {
    s.queue == [] && s.decisions == map[] && s.grants == [] && s.next == 0 && !s.bound
  }

  function Advance(r: Run, step: Step): Run {
    var s := r.state;
    var t := After(s, step);
    match step
    case Decide(id, decision, saved) =>
      if id in t.decisions && IndexOf(s.queue, id).Some? then Run(t, r.decided[id := decision], r.answers)
      else r.(state := t)
    case WaitOnce(id, cancelled) =>
      if id in s.decisions then Run(t, r.decided, r.answers + [(id, s.decisions[id])]) else r.(state := t)
    case _ => r.(state := t)
  }

  function RunOn(r: Run, steps: seq<Step>): Run {
    if steps == [] then r else Advance(RunOn(r, steps[..|steps| - 1]), steps[|steps| - 1])
  }

  function RunFrom(s: State, steps: seq<Step>): Run { RunOn(Run(s, map[], []), steps) }

  ghost predicate Ascending(queue: seq<Request>) {
    forall j, k | 0 <= j < k < |queue| :: queue[j].id < queue[k].id
  }

  ghost predicate UpTo(queue: seq<Request>, last: nat) {
    forall k | 0 <= k < |queue| :: queue[k].id <= last
  }

  /** The waiting requests in the order they came; identifiers never return. */
  ghost predicate QueueInOrder(s: State) {
    && Ascending(s.queue) && UpTo(s.queue, s.next)
    && (forall id | id in s.decisions :: id <= s.next)
  }

  ghost predicate DecidedOnce(r: Run) {
    && (forall id | id in r.decided :: id <= r.state.next)
    && (forall k | 0 <= k < |r.state.queue| :: r.state.queue[k].id !in r.decided)
    && (forall id | id in r.state.decisions :: id in r.decided && r.decided[id] == r.state.decisions[id])
  }

  ghost predicate AnsweredOnce(r: Run) {
    && (forall k | 0 <= k < |r.answers| ::
          && r.answers[k].0 in r.decided && r.decided[r.answers[k].0] == r.answers[k].1
          && r.answers[k].0 !in r.state.decisions)
    && (forall j, k | 0 <= j < k < |r.answers| :: r.answers[j].0 != r.answers[k].0)
  }

  ghost predicate Sound(r: Run) { QueueInOrder(r.state) && DecidedOnce(r) && AnsweredOnce(r) }

  lemma AppendedKeeps(s: State, events: seq<Event>, saved: nat)
    ensures Appended(s, events, saved).0 == s.(events := Appended(s, events, saved).0.events)
  {
  }

  lemma {:induction false} RemainingInOrder(queue: seq<Request>, id: nat, last: nat)
    requires Ascending(queue) && UpTo(queue, last)
    ensures Ascending(Remaining(queue, id)) && UpTo(Remaining(queue, id), last)
    decreases |queue|
  {
    if queue != [] {
      var n := |queue| - 1;
      if n > 0 {
        assert UpTo(queue[..n], queue[n - 1].id);
        RemainingInOrder(queue[..n], id, queue[n - 1].id);
      }
    }
  }

  lemma {:induction false} RemainingComesFrom(queue: seq<Request>, id: nat, k: nat) returns (j: nat)
    requires k < |Remaining(queue, id)|
    ensures j < |queue| && queue[j] == Remaining(queue, id)[k] && queue[j].id != id
    decreases |queue|
  {
    var n := |queue| - 1;
    if k < |Remaining(queue[..n], id)| {
      j := RemainingComesFrom(queue[..n], id, k);
    } else {
      j := n;
    }
  }

  /** Whether a new request can be saved; without a session the main agent's
      request need not be. */
  predicate SavesRequest(s: State, agent: Option<string>, saved: nat) {
    saved > 0 || (agent.None? && !s.bound)
  }

  /** A request is given an identifier exactly when a surface shows it, and goes
      to the end of the queue exactly when it is also saved; the main agent's
      goes to the journal of the conversation, a collaborator's does not. */
  lemma BeginMeans(s: State, agent: Option<string>, callId: string, tool: string, access: Access, saved: nat)
    ensures var t := AfterBegin(s, agent, callId, tool, access, saved);
            var request := Request(s.next + 1, callId, agent, tool, access);
            var shown := s.surface == Panel || (s.surface == Inline && agent.None?);
            && (t == s <==> !shown)
            && (t.queue == s.queue + [request] <==> shown && SavesRequest(s, agent, saved))
            && (t.queue == s.queue <==> !shown || !SavesRequest(s, agent, saved))
            && (t.events == s.events + [Requested(request)] <==> shown && agent.None? && s.bound && saved > 0)
            && (t.events == s.events <==> !(shown && agent.None? && s.bound && saved > 0))
            && t == s.(events := t.events, queue := t.queue, next := if shown then s.next + 1 else s.next)
  {
    assert s.events + [Requested(Request(s.next + 1, callId, agent, tool, access))][..0] == s.events;
  }

  lemma BeginIsSound(r: Run, agent: Option<string>, callId: string, tool: string, access: Access, saved: nat)
    requires Sound(r)
    ensures Sound(Advance(r, Begin(agent, callId, tool, access, saved)))
  {
    hide AfterBegin;
    BeginMeans(r.state, agent, callId, tool, access, saved);
  }

  /** Whether a decision takes effect: its request still waits, and all its
      events can be saved. */
  predicate TakesEffect(s: State, id: nat, decision: Decision, saved: nat) {
    match IndexOf(s.queue, id)
    case None => false
    case Some(k) => !s.bound || saved >= |DecisionEvents(s.queue[k], decision)|
  }

  /** Exactly such a decision takes the request out of the queue, answers it
      and remembers its grants; any other changes nothing but the journal, and
      that only for a request that waits. */
  lemma DecideMeans(s: State, id: nat, decision: Decision, saved: nat)
    ensures var t := AfterDecide(s, id, decision, saved);
            && (TakesEffect(s, id, decision, saved) <==> t.queue != s.queue)
            && (TakesEffect(s, id, decision, saved) ==>
                  var k := IndexOf(s.queue, id).value;
                  var needed := Grants(s.queue[k].access);
                  t == s.(events := t.events, queue := s.queue[..k] + s.queue[k + 1..],
                          decisions := s.decisions[id := decision],
                          grants := if decision == Remember then IncludeAll(s.grants, needed) else s.grants))
            && (!TakesEffect(s, id, decision, saved) ==> t == s.(events := t.events))
            && (IndexOf(s.queue, id).None? ==> t == s)
  {
    hide DecisionEvents, IncludeAll, Grants;
  }

  lemma RemovedKeepsOrder(queue: seq<Request>, k: nat, last: nat)
    requires k < |queue| && Ascending(queue) && UpTo(queue, last)
    ensures var rest := queue[..k] + queue[k + 1..];
            && Ascending(rest) && UpTo(rest, last)
            && forall i | 0 <= i < |rest| :: rest[i].id != queue[k].id && rest[i] in queue
    ensures queue[k].id <= last
  {
  }

  lemma DecideIsSound(r: Run, id: nat, decision: Decision, saved: nat)
    requires Sound(r)
    ensures Sound(Advance(r, Decide(id, decision, saved)))
  {
    hide AfterDecide, IncludeAll, Grants, Ascending, UpTo, IndexOf;
    var s, t := r.state, AfterDecide(r.state, id, decision, saved);
    DecideMeans(s, id, decision, saved);
    if TakesEffect(s, id, decision, saved) {
      RemovedKeepsOrder(s.queue, IndexOf(s.queue, id).value, s.next);
    }
  }

  lemma WaitIsSound(r: Run, id: nat, cancelled: bool)
    requires Sound(r)
    ensures Sound(Advance(r, WaitOnce(id, cancelled)))
  {
    hide Ascending, UpTo, Remaining;
    DroppedIsSound(r, id);
  }

  lemma AbandonIsSound(r: Run, id: nat)
    requires Sound(r)
    ensures Sound(Advance(r, Abandon(id)))
  {
    DroppedIsSound(r, id);
  }

  lemma DroppedIsSound(r: Run, id: nat)
    requires Sound(r)
    ensures var queue := Remaining(r.state.queue, id);
            Ascending(queue) && UpTo(queue, r.state.next) && forall k | 0 <= k < |queue| :: queue[k].id !in r.decided
  {
    var queue := Remaining(r.state.queue, id);
    RemainingInOrder(r.state.queue, id, r.state.next);
    forall k | 0 <= k < |queue|
      ensures queue[k].id !in r.decided
    {
      var j := RemainingComesFrom(r.state.queue, id, k);
    }
  }

  lemma OtherIsSound(r: Run, step: Step)
    requires Sound(r) && !step.Begin? && !step.Decide? && !step.WaitOnce? && !step.Abandon?
    ensures Sound(Advance(r, step))
  {
    hide ReplayedGrants, LevelOf, AfterRevoke, Appended, Ascending, UpTo;
    var level := if step.SetLevel? then step.level else Read;
    AppendedKeeps(r.state, [LevelSet(level)], if step.SetLevel? then step.saved else 0);
    EmptyQueue(r.state.next);
    if step.Revoke? {
      RevokeMeans(r.state, step.grant, step.saved);
    }
  }

  lemma EmptyQueue(last: nat)
    ensures Ascending([]) && UpTo([], last)
  {
  }

  lemma RevokeMeans(s: State, grant: Grant, saved: nat)
    ensures var t := AfterRevoke(s, grant, saved); t == s.(events := t.events, grants := t.grants)
  {
    hide Position;
  }

  lemma StepIsSound(r: Run, step: Step)
    requires Sound(r)
    ensures Sound(Advance(r, step))
  {
    hide Advance, Sound;
    match step {
      case Begin(agent, callId, tool, access, saved) => BeginIsSound(r, agent, callId, tool, access, saved);
      case Decide(id, decision, saved) => DecideIsSound(r, id, decision, saved);
      case WaitOnce(id, cancelled) => WaitIsSound(r, id, cancelled);
      case Abandon(id) => AbandonIsSound(r, id);
      case _ => OtherIsSound(r, step);
    }
  }

  /** Over every interleaving: no identifier is used twice, no request is both
      waiting and decided, each is answered at most once, and the answer is what
      was decided. */
  lemma EveryRunIsSound(s: State, steps: seq<Step>)
    requires Start(s)
    ensures Sound(RunFrom(s, steps))
  {
    hide Sound;
    StartIsSound(s);
    StaysSound(Run(s, map[], []), steps);
  }

  lemma {:induction false} StaysSound(r: Run, steps: seq<Step>)
    requires Sound(r)
    ensures Sound(RunOn(r, steps))
    decreases |steps|
  {
    hide Advance, Sound;
    if steps != [] {
      StaysSound(r, steps[..|steps| - 1]);
      StepIsSound(RunOn(r, steps[..|steps| - 1]), steps[|steps| - 1]);
    }
  }

  lemma StartIsSound(s: State)
    requires Start(s)
    ensures Sound(Run(s, map[], []))
  {
  }

  // ----- An outcome is final

  /** A request that was given out and is neither waiting nor decided. */
  ghost predicate Gone(s: State, id: nat) {
    && id <= s.next && id !in s.decisions
    && forall k | 0 <= k < |s.queue| :: s.queue[k].id != id
  }

  /** A turn that got its outcome left nothing behind. */
  /** A wait ends with the decision, which is taken, or else when it is cancelled
      or nobody can answer, and then only its request leaves the queue. */
  lemma WaitMeans(s: State, id: nat, cancelled: bool)
    ensures var (t, outcome) := AfterWait(s, id, cancelled);
            if id in s.decisions then
              outcome == Some(Decided(s.decisions[id])) && t == s.(decisions := s.decisions - {id})
            else if cancelled || s.surface == NoSurface then
              && outcome == Some(Cancelled) && t == s.(queue := t.queue)
              && forall r :: r in t.queue <==> r in s.queue && r.id != id
            else outcome == None && t == s
  {
    hide Remaining;
    RemainingMeans(s.queue, id);
  }

  lemma {:induction false} RemainingMeans(queue: seq<Request>, id: nat)
    ensures forall r :: r in Remaining(queue, id) <==> r in queue && r.id != id
    decreases |queue|
  {
    if queue != [] {
      var n := |queue| - 1;
      RemainingMeans(queue[..n], id);
      assert queue == queue[..n] + [queue[n]];
    }
  }

  lemma OutcomeEnds(r: Run, id: nat, cancelled: bool)
    requires Sound(r) && id <= r.state.next && AfterWait(r.state, id, cancelled).1.Some?
    ensures Gone(AfterWait(r.state, id, cancelled).0, id)
  {
    hide Ascending, UpTo, Remaining;
    var s := r.state;
    forall k | 0 <= k < |Remaining(s.queue, id)|
      ensures Remaining(s.queue, id)[k].id != id
    {
      var j := RemainingComesFrom(s.queue, id, k);
    }
  }

  lemma GoneStays(r: Run, step: Step, id: nat)
    requires Sound(r) && Gone(r.state, id)
    ensures Gone(After(r.state, step), id)
    ensures Advance(r, step).answers == r.answers
      || (|Advance(r, step).answers| == |r.answers| + 1 && r.answers <= Advance(r, step).answers
          && Advance(r, step).answers[|r.answers|].0 != id)
  {
    hide Sound, ReplayedGrants, LevelOf, Position, DecisionEvents, IncludeAll, Grants, Shows;
    var s := r.state;
    if step.Decide? {
      DecideMeans(s, step.id, step.decision, step.saved);
    }
    if step.Abandon? || step.WaitOnce? {
      hide Remaining;
      forall k | 0 <= k < |Remaining(s.queue, step.id)|
        ensures Remaining(s.queue, step.id)[k].id != id
      {
        var j := RemainingComesFrom(s.queue, step.id, k);
      }
    }
  }

  /** After its outcome a request is never decided or answered again. */
  lemma {:induction false} GoneForever(r: Run, steps: seq<Step>, id: nat)
    requires Sound(r) && Gone(r.state, id)
    ensures var end := RunOn(r, steps);
            && Gone(end.state, id) && r.answers <= end.answers
            && forall k | |r.answers| <= k < |end.answers| :: end.answers[k].0 != id
    decreases |steps|
  {
    hide Advance, Sound, Gone;
    if steps != [] {
      var before, step := steps[..|steps| - 1], steps[|steps| - 1];
      GoneForever(r, before, id);
      StaysSound(r, before);
      GoneStays(RunOn(r, before), step, id);
      StateAdvances(RunOn(r, before), step);
    }
  }

  lemma StateAdvances(r: Run, step: Step)
    ensures Advance(r, step).state == After(r.state, step)
  {
  }

  // ----- A remembered approval

  ghost predicate AllRemembered(grants: seq<Grant>, needed: seq<Grant>) {
    forall k | 0 <= k < |needed| :: needed[k] in grants
  }

  lemma RememberedIsAllowed(grants: seq<Grant>, a: Access)
    requires AllRemembered(grants, Grants(a))
    ensures Assessed(Workspace, grants, a) == Allow
  {
    var needed := Grants(a);
    forall k | 0 <= k < |needed|
      ensures Authorized(grants, needed[k])
    {
      var i :| 0 <= i < |grants| && grants[i] == needed[k];
      assert grants[i].Authorizes(needed[k]);
    }
  }

  lemma {:induction false} IncludeAllMeans(grants: seq<Grant>, more: seq<Grant>, g: Grant)
    ensures g in IncludeAll(grants, more) <==> g in grants || g in more
    decreases |more|
  {
    if more != [] {
      IncludeAllMeans(grants, more[..|more| - 1], g);
      assert g in more <==> g in more[..|more| - 1] || g == more[|more| - 1];
    }
  }

  /** Remembering a request's decision remembers all it needs. */
  lemma DecisionRemembers(s: State, id: nat, saved: nat, k: nat)
    requires IndexOf(s.queue, id) == Some(k) && id !in s.decisions
    requires id in AfterDecide(s, id, Remember, saved).decisions
    ensures AllRemembered(AfterDecide(s, id, Remember, saved).grants, Grants(s.queue[k].access))
  {
    hide DecisionEvents, IncludeAll, Grants;
    var needed := Grants(s.queue[k].access);
    forall i | 0 <= i < |needed|
      ensures needed[i] in AfterDecide(s, id, Remember, saved).grants
    {
      IncludeAllMeans(s.grants, needed, needed[i]);
    }
  }

  /** The steps that may take one of these grants away. */
  predicate TakesBack(step: Step, needed: seq<Grant>) {
    step.Bind? || (step.Revoke? && step.grant in needed)
  }

  lemma DecideRemembers(s: State, id: nat, decision: Decision, saved: nat, needed: seq<Grant>)
    requires AllRemembered(s.grants, needed)
    ensures AllRemembered(AfterDecide(s, id, decision, saved).grants, needed)
  {
    hide AfterDecide, DecisionEvents, IncludeAll, Grants;
    DecideMeans(s, id, decision, saved);
    if TakesEffect(s, id, decision, saved) {
      var added := Grants(s.queue[IndexOf(s.queue, id).value].access);
      forall i | 0 <= i < |needed|
        ensures needed[i] in IncludeAll(s.grants, added)
      {
        IncludeAllMeans(s.grants, added, needed[i]);
      }
    }
  }

  lemma OneStepRemembers(s: State, step: Step, needed: seq<Grant>)
    requires AllRemembered(s.grants, needed) && !TakesBack(step, needed)
    ensures AllRemembered(After(s, step).grants, needed)
  {
    hide AfterBegin, AfterDecide, AfterRevoke, ReplayedGrants, LevelOf, Remaining;
    match step {
      case Decide(id, decision, saved) =>
        DecideRemembers(s, id, decision, saved, needed);
      case Revoke(grant, saved) =>
        forall i | 0 <= i < |needed|
          ensures needed[i] in AfterRevoke(s, grant, saved).grants
        {
          RevokeKeepsOthers(s, grant, saved, needed[i]);
        }
      case Begin(agent, callId, tool, access, saved) =>
        BeginMeans(s, agent, callId, tool, access, saved);
      case _ =>
    }
  }

  lemma RevokeKeepsOthers(s: State, grant: Grant, saved: nat, other: Grant)
    requires other in s.grants && other != grant
    ensures other in AfterRevoke(s, grant, saved).grants
  {
    var i :| 0 <= i < |s.grants| && s.grants[i] == other;
    match Position(s.grants, grant)
    case None =>
    case Some(k) =>
      var rest := s.grants[..k] + s.grants[k + 1..];
      assert rest[if i < k then i else i - 1] == other;
  }

  /** A remembered access stays allowed at Workspace until one of its grants is
      revoked or the conversation is bound again. */
  lemma {:induction false} RememberedStaysAllowed(r: Run, steps: seq<Step>, a: Access)
    requires AllRemembered(r.state.grants, Grants(a))
    requires forall k | 0 <= k < |steps| :: !TakesBack(steps[k], Grants(a))
    ensures AllRemembered(RunOn(r, steps).state.grants, Grants(a))
    ensures Assessed(Workspace, RunOn(r, steps).state.grants, a) == Allow
    decreases |steps|
  {
    hide Advance, After, AllRemembered, TakesBack, Grants, Assessed;
    if steps != [] {
      var before, step := steps[..|steps| - 1], steps[|steps| - 1];
      RememberedStaysAllowed(r, before, a);
      OneStepRemembers(RunOn(r, before).state, step, Grants(a));
      StateAdvances(RunOn(r, before), step);
    }
    RememberedIsAllowed(RunOn(r, steps).state.grants, a);
  }

  // ----- The journal restores what was remembered

  ghost predicate Distinct(grants: seq<Grant>) {
    forall j, k | 0 <= j < k < |grants| :: grants[j] != grants[k]
  }

  lemma {:induction false} ReplayMore(events: seq<Event>, more: seq<Event>)
    ensures ReplayedGrants(events + more) == ReplayFrom(ReplayedGrants(events), more)
    decreases |more|
  {
    hide Replayed;
    if more == [] {
      assert events + more == events;
    } else {
      ReplayMore(events, more[..|more| - 1]);
      assert (events + more)[..|events + more| - 1] == events + more[..|more| - 1];
    }
  }

  function ReplayFrom(grants: seq<Grant>, events: seq<Event>): seq<Grant> {
    if events == [] then grants else Replayed(ReplayFrom(grants, events[..|events| - 1]), events[|events| - 1])
  }

  lemma {:induction false} ReplayGrants(grants: seq<Grant>, more: seq<Grant>)
    ensures ReplayFrom(grants, GrantEvents(more)) == IncludeAll(grants, more)
    decreases |more|
  {
    if more != [] {
      ReplayGrants(grants, more[..|more| - 1]);
      assert GrantEvents(more)[..|more| - 1] == GrantEvents(more[..|more| - 1]);
    }
  }

  lemma {:induction false} ReplayAfterOne(grants: seq<Grant>, first: Event, more: seq<Event>)
    ensures ReplayFrom(grants, [first] + more) == ReplayFrom(Replayed(grants, first), more)
    decreases |more|
  {
    hide Replayed;
    if more == [] {
      assert [first] + more == [first];
      assert ReplayFrom(grants, [first]) == Replayed(ReplayFrom(grants, []), first) by {
        assert [first][..0] == [];
      }
    } else {
      ReplayAfterOne(grants, first, more[..|more| - 1]);
      assert ([first] + more)[..|more|] == [first] + more[..|more| - 1];
    }
  }

  lemma {:induction false} WithoutRemoves(grants: seq<Grant>, k: nat)
    requires Distinct(grants) && k < |grants|
    ensures Without(grants, grants[k]) == grants[..k] + grants[k + 1..]
    decreases |grants|
  {
    var n := |grants| - 1;
    if k == n {
      WithoutNothing(grants[..n], grants[n]);
      assert grants[..n] + [] == grants[..n] + grants[n + 1..];
    } else {
      WithoutRemoves(grants[..n], k);
      assert grants[..n][k] == grants[k] && grants[..n][..k] == grants[..k];
      assert grants[..n][k + 1..] + [grants[n]] == grants[k + 1..];
    }
  }

  lemma NothingWithout(grant: Grant)
    ensures Without([], grant) == []
  {
  }

  lemma LastAside(grants: seq<Grant>, grant: Grant)
    requires grants != [] && grant !in grants
    ensures grants[|grants| - 1] != grant && grant !in grants[..|grants| - 1]
  {
  }

  lemma WithoutStep(grants: seq<Grant>, grant: Grant)
    requires grants != []
    ensures var n := |grants| - 1;
            Without(grants, grant) == Without(grants[..n], grant) + if grants[n] == grant then [] else [grants[n]]
  {
  }

  lemma {:induction false} WithoutNothing(grants: seq<Grant>, grant: Grant)
    requires grant !in grants
    ensures Without(grants, grant) == grants
    decreases |grants|
  {
    hide Without;
    if grants == [] {
      NothingWithout(grant);
    } else {
      var n := |grants| - 1;
      LastAside(grants, grant);
      WithoutNothing(grants[..n], grant);
      WithoutStep(grants, grant);
      assert grants[..n] + [grants[n]] == grants;
    }
  }

  lemma {:induction false} IncludeAllDistinct(grants: seq<Grant>, more: seq<Grant>)
    requires Distinct(grants)
    ensures Distinct(IncludeAll(grants, more))
    decreases |more|
  {
    if more != [] {
      IncludeAllDistinct(grants, more[..|more| - 1]);
    }
  }

  lemma {:induction false} IncludeAllKnown(grants: seq<Grant>, more: seq<Grant>)
    ensures IncludeAll(grants, more) == grants <==> forall k | 0 <= k < |more| :: more[k] in grants
    ensures grants <= IncludeAll(grants, more)
    decreases |more|
  {
    if more != [] {
      var n := |more| - 1;
      IncludeAllKnown(grants, more[..n]);
      assert forall k | 0 <= k < n :: more[..n][k] == more[k];
    }
  }

  /** How many of a decision's first `m` events are grants. */
  function GrantCount(r: Request, m: nat): nat {
    if r.agent.None? then if m > 0 then m - 1 else 0 else m
  }

  /** The first events of a decision that cannot be saved whole remember the
      first grants it needs. */
  lemma PartialDecision(grants: seq<Grant>, r: Request, decision: Decision, m: nat)
    requires m < |DecisionEvents(r, decision)|
    ensures GrantCount(r, m) <= |Grants(r.access)|
    ensures ReplayFrom(grants, DecisionEvents(r, decision)[..m]) ==
            IncludeAll(grants, Grants(r.access)[..GrantCount(r, m)])
    ensures forall i | 0 <= i < m :: DecisionEvents(r, decision)[i].Granted? <==> i >= m - GrantCount(r, m)
    ensures forall i | m - GrantCount(r, m) <= i < m ::
              DecisionEvents(r, decision)[i] == Granted(Grants(r.access)[i - (m - GrantCount(r, m))])
  {
    hide Grants, Include;
    var events, needed, n := DecisionEvents(r, decision), Grants(r.access), GrantCount(r, m);
    if m == 0 {
      assert events[..m] == [] && needed[..n] == [];
    } else if r.agent.None? {
      assert events[..m] == [events[0]] + GrantEvents(needed[..n]);
      ReplayAfterOne(grants, events[0], GrantEvents(needed[..n]));
      ReplayGrants(grants, needed[..n]);
    } else {
      assert events[..m] == GrantEvents(needed[..n]);
      ReplayGrants(grants, needed[..n]);
    }
  }

  lemma WholeDecision(grants: seq<Grant>, r: Request, decision: Decision)
    ensures ReplayFrom(grants, DecisionEvents(r, decision)) ==
            if decision == Remember then IncludeAll(grants, Grants(r.access)) else grants
  {
    hide Include;
    var events, needed := DecisionEvents(r, decision), Grants(r.access);
    if decision == Remember && (r.agent.Some? || r.access.members != []) {
      hide Grants;
      ReplayGrants(grants, needed);
      if r.agent.None? {
        ReplayAfterOne(grants, events[0], GrantEvents(needed));
      } else {
        assert events == GrantEvents(needed);
      }
    } else if r.agent.None? {
      assert events == [events[0]] + [];
      ReplayAfterOne(grants, events[0], []);
      if decision == Remember {
        assert needed == [GrantOf(r.access)] && needed[..0] == [];
      }
    }
  }

  lemma {:induction false} SameLevel(events: seq<Event>, more: seq<Event>)
    requires forall k | 0 <= k < |more| :: !more[k].LevelSet?
    ensures ReplayedLevel(events + more) == ReplayedLevel(events)
    decreases |more|
  {
    if more == [] {
      assert events + more == events;
    } else {
      SameLevel(events, more[..|more| - 1]);
      assert (events + more)[..|events + more| - 1] == events + more[..|more| - 1];
    }
  }

  /** Binding the session again, which began at level `start` if at any, would
      restore the level and the grants. */
  ghost predicate Agrees(s: State, start: Option<Level>) {
    s.bound ==> ReplayedGrants(s.events) == s.grants && LevelOf(s.events, start, s.default) == s.level
  }

  /** A decision that fails after it saved a grant nobody remembers yet. */
  ghost predicate Leaks(s: State, step: Step) {
    step.Decide? && s.bound && IndexOf(s.queue, step.id).Some? &&
    var events := DecisionEvents(s.queue[IndexOf(s.queue, step.id).value], step.decision);
    step.saved < |events| && exists i | 0 <= i < step.saved :: events[i].Granted? && events[i].grant !in s.grants
  }

  /** Another default level for a session that says nowhere which level it is at. */
  ghost predicate Shifts(s: State, step: Step, start: Option<Level>) {
    && step.SetDefault? && step.level != s.level
    && s.bound && start.None? && ReplayedLevel(s.events).None?
  }

  lemma DecideAgrees(s: State, id: nat, decision: Decision, saved: nat, start: Option<Level>)
    requires Agrees(s, start) && Distinct(s.grants)
    ensures var t := AfterDecide(s, id, decision, saved);
            Distinct(t.grants) && (Agrees(t, start) <==> !Leaks(s, Decide(id, decision, saved)))
  {
    hide DecisionEvents, Grants, IncludeAll, Distinct, ReplayedGrants, ReplayedLevel;
    match IndexOf(s.queue, id)
    case None =>
    case Some(k) =>
      var r := s.queue[k];
      var events, needed := DecisionEvents(r, decision), Grants(r.access);
      IncludeAllDistinct(s.grants, needed);
      var m := if saved < |events| then saved else |events|;
      ReplayMore(s.events, events[..m]);
      NoLevelInDecision(r, decision);
      SameLevel(s.events, events[..m]);
      assert events[..|events|] == events;
      if m < |events| {
        PartLeaks(s.grants, r, decision, m);
      } else {
        WholeDecision(s.grants, r, decision);
      }
  }

  /** Replaying a part of a decision changes nothing exactly when all its
      grants are known. */
  lemma PartLeaks(grants: seq<Grant>, r: Request, decision: Decision, m: nat)
    requires m < |DecisionEvents(r, decision)|
    ensures var events := DecisionEvents(r, decision);
            ReplayFrom(grants, events[..m]) == grants <==>
            !exists i | 0 <= i < m :: events[i].Granted? && events[i].grant !in grants
  {
    hide DecisionEvents, Grants, IncludeAll;
    var events, needed, n := DecisionEvents(r, decision), Grants(r.access), GrantCount(r, m);
    PartialDecision(grants, r, decision, m);
    IncludeAllKnown(grants, needed[..n]);
    forall k | 0 <= k < n
      ensures events[m - n + k] == Granted(needed[..n][k])
    {
    }
  }

  lemma NoLevelInDecision(r: Request, decision: Decision)
    ensures forall k | 0 <= k < |DecisionEvents(r, decision)| :: !DecisionEvents(r, decision)[k].LevelSet?
  {
  }

  lemma OneEvent(events: seq<Event>, e: Event)
    ensures ReplayedGrants(events + [e]) == Replayed(ReplayedGrants(events), e)
    ensures ReplayedLevel(events + [e]) == if e.LevelSet? then Some(e.level) else ReplayedLevel(events)
  {
    assert (events + [e])[..|events|] == events;
  }

  lemma OtherAgrees(s: State, step: Step, start: Option<Level>)
    requires Agrees(s, start) && Distinct(s.grants) && !step.Decide? && !step.Bind?
    ensures Distinct(After(s, step).grants) && (Agrees(After(s, step), start) <==> !Shifts(s, step, start))
  {
    hide ReplayedGrants, ReplayedLevel, Without, Remaining, Distinct, Shows;
    match step {
      case SetLevel(level, saved) =>
        OneEvent(s.events, LevelSet(level));
        assert s.events + [LevelSet(level)][..0] == s.events;
      case Begin(agent, callId, tool, access, saved) =>
        var e := Requested(Request(s.next + 1, callId, agent, tool, access));
        OneEvent(s.events, e);
        assert s.events + [e][..0] == s.events;
      case Revoke(grant, saved) =>
        OneEvent(s.events, Revoked(grant));
        assert s.events + [Revoked(grant)][..0] == s.events;
        if Position(s.grants, grant).Some? {
          WithoutRemoves(s.grants, Position(s.grants, grant).value);
          WithoutDistinct(s.grants, grant);
        }
      case _ =>
    }
  }

  /** The journal keeps telling the truth, step by step, except exactly when a
      decision fails after it saved a grant nobody remembers, or when the
      default changes under a session that never said its level. */
  lemma JournalAgrees(s: State, step: Step, start: Option<Level>)
    requires Agrees(s, start) && Distinct(s.grants) && !step.Bind?
    ensures Distinct(After(s, step).grants)
    ensures Agrees(After(s, step), start) <==> !Leaks(s, step) && !Shifts(s, step, start)
  {
    hide Agrees, Distinct, DecisionEvents, IndexOf, AfterBegin, AfterDecide, AfterRevoke, AfterWait, Appended,
         ReplayedGrants, ReplayedLevel, LevelOf, Remaining;
    if step.Decide? {
      DecideAgrees(s, step.id, step.decision, step.saved, start);
    } else {
      OtherAgrees(s, step, start);
    }
  }

  lemma {:induction false} ReplayedDistinct(events: seq<Event>)
    ensures Distinct(ReplayedGrants(events))
    decreases |events|
  {
    if events != [] {
      var n := |events| - 1;
      ReplayedDistinct(events[..n]);
      match events[n] {
        case Revoked(grant) => WithoutDistinct(ReplayedGrants(events[..n]), grant);
        case _ =>
      }
    }
  }

  lemma {:induction false} WithoutDistinct(grants: seq<Grant>, grant: Grant)
    requires Distinct(grants)
    ensures Distinct(Without(grants, grant))
    decreases |grants|
  {
    var known := Position(grants, grant);
    if known.Some? {
      WithoutRemoves(grants, known.value);
    } else {
      WithoutNothing(grants, grant);
    }
  }

  /** No step of the run binds again, leaves a stray grant in the journal or
      moves a level nobody wrote down. */
  ghost predicate Clean(r: Run, steps: seq<Step>, start: Option<Level>) {
    steps == [] ||
    var before, step := steps[..|steps| - 1], steps[|steps| - 1];
    && Clean(r, before, start) && !step.Bind?
    && !Leaks(RunOn(r, before).state, step) && !Shifts(RunOn(r, before).state, step, start)
  }

  lemma {:induction false} CleanRunAgrees(r: Run, steps: seq<Step>, start: Option<Level>)
    requires Agrees(r.state, start) && Distinct(r.state.grants) && Clean(r, steps, start)
    ensures Agrees(RunOn(r, steps).state, start) && Distinct(RunOn(r, steps).state.grants)
    decreases |steps|
  {
    hide Agrees, Distinct, Leaks, Shifts, Advance, After;
    if steps != [] {
      var before, step := steps[..|steps| - 1], steps[|steps| - 1];
      CleanRunAgrees(r, before, start);
      JournalAgrees(RunOn(r, before).state, step, start);
      StateAdvances(RunOn(r, before), step);
    }
  }

  // ----- Whole runs of one session

  predicate SameSession(steps: seq<Step>) { forall k | 0 <= k < |steps| :: !steps[k].Bind? }

  /** Grants in the journal that the state does not remember. */
  ghost function StrayAfter(s: State, step: Step, stray: set<Grant>): set<Grant> {
    if !step.Decide? || !s.bound || IndexOf(s.queue, step.id).None? then stray
    else
      var r := s.queue[IndexOf(s.queue, step.id).value];
      var events := DecisionEvents(r, step.decision);
      if step.saved < |events| then
        stray + set i | 0 <= i < step.saved && events[i].Granted? && events[i].grant !in s.grants :: events[i].grant
      else if step.decision == Remember then stray - set g | g in Grants(r.access)
      else stray
  }

  /** The grants of failed decisions of a run that no later decision remembered. */
  ghost function Stray(r: Run, steps: seq<Step>): set<Grant> {
    if steps == [] then {}
    else
      var before := steps[..|steps| - 1];
      StrayAfter(RunOn(r, before).state, steps[|steps| - 1], Stray(r, before))
  }

  /** The journal remembers the grants of the state and the stray ones. */
  ghost predicate Tells(s: State, stray: set<Grant>) {
    && s.bound && Distinct(s.grants)
    && (forall g :: g in ReplayedGrants(s.events) <==> g in s.grants || g in stray)
    && (forall g | g in stray :: g !in s.grants)
  }

  lemma {:induction false} WithoutMeans(grants: seq<Grant>, grant: Grant, g: Grant)
    ensures g in Without(grants, grant) <==> g in grants && g != grant
    decreases |grants|
  {
    if grants != [] {
      var n := |grants| - 1;
      WithoutMeans(grants[..n], grant, g);
      assert g in grants <==> g in grants[..n] || g == grants[n];
    }
  }

  lemma DecideTells(s: State, id: nat, decision: Decision, saved: nat, stray: set<Grant>)
    requires Tells(s, stray)
    ensures Tells(AfterDecide(s, id, decision, saved), StrayAfter(s, Decide(id, decision, saved), stray))
  {
    hide DecisionEvents, Grants, IncludeAll, Distinct, ReplayedGrants;
    match IndexOf(s.queue, id)
    case None =>
    case Some(k) =>
      var r := s.queue[k];
      var events, needed, known := DecisionEvents(r, decision), Grants(r.access), ReplayedGrants(s.events);
      IncludeAllDistinct(s.grants, needed);
      if saved < |events| {
        PartialDecisionTells(s, r, decision, saved, stray);
      } else {
        ReplayMore(s.events, events);
        WholeDecision(known, r, decision);
        forall g
          ensures g in IncludeAll(known, needed) <==> g in known || g in needed
          ensures g in IncludeAll(s.grants, needed) <==> g in s.grants || g in needed
        {
          IncludeAllMeans(known, needed, g);
          IncludeAllMeans(s.grants, needed, g);
        }
      }
  }

  lemma PartialDecisionTells(s: State, r: Request, decision: Decision, m: nat, stray: set<Grant>)
    requires Tells(s, stray) && m < |DecisionEvents(r, decision)|
    ensures var events := DecisionEvents(r, decision);
            var more := set i | 0 <= i < m && events[i].Granted? && events[i].grant !in s.grants :: events[i].grant;
            Tells(s.(events := s.events + events[..m]), stray + more)
  {
    hide DecisionEvents, Grants, IncludeAll, Distinct, ReplayedGrants;
    var events, needed, known := DecisionEvents(r, decision), Grants(r.access), ReplayedGrants(s.events);
    var n := GrantCount(r, m);
    ReplayMore(s.events, events[..m]);
    PartialDecision(known, r, decision, m);
    forall g
      ensures g in IncludeAll(known, needed[..n]) <==> g in known || g in needed[..n]
      ensures g in needed[..n] <==> exists i :: 0 <= i < m && events[i].Granted? && events[i].grant == g
    {
      IncludeAllMeans(known, needed[..n], g);
      if g in needed[..n] {
        var k :| 0 <= k < n && needed[k] == g;
        assert events[m - n + k] == Granted(needed[k]);
      }
    }
  }

  lemma StepTells(s: State, step: Step, stray: set<Grant>)
    requires Tells(s, stray) && !step.Bind?
    ensures Tells(After(s, step), StrayAfter(s, step, stray))
  {
    hide ReplayedGrants, ReplayedLevel, Without, Remaining, Distinct, Shows, AfterDecide;
    match step {
      case SetLevel(level, saved) =>
        OneEvent(s.events, LevelSet(level));
        assert s.events + [LevelSet(level)][..0] == s.events;
      case Begin(agent, callId, tool, access, saved) =>
        var e := Requested(Request(s.next + 1, callId, agent, tool, access));
        OneEvent(s.events, e);
        assert s.events + [e][..0] == s.events;
      case Revoke(grant, saved) =>
        RevokeTells(s, grant, saved, stray);
      case Decide(id, decision, saved) =>
        DecideTells(s, id, decision, saved, stray);
      case _ =>
    }
  }

  lemma RevokeTells(s: State, grant: Grant, saved: nat, stray: set<Grant>)
    requires Tells(s, stray)
    ensures Tells(AfterRevoke(s, grant, saved), stray)
  {
    hide ReplayedGrants, Without, Distinct;
    OneEvent(s.events, Revoked(grant));
    assert s.events + [Revoked(grant)][..0] == s.events;
    if Position(s.grants, grant).Some? && saved > 0 {
      WithoutRemoves(s.grants, Position(s.grants, grant).value);
      WithoutDistinct(s.grants, grant);
      forall g
        ensures g in Without(s.grants, grant) <==> g in s.grants && g != grant
        ensures g in Without(ReplayedGrants(s.events), grant) <==> g in ReplayedGrants(s.events) && g != grant
      {
        WithoutMeans(s.grants, grant, g);
        WithoutMeans(ReplayedGrants(s.events), grant, g);
      }
    }
  }

  /** Over a run the journal never tells more than the remembered grants and
      those of failed decisions. */
  lemma {:induction false} RunTells(r: Run, steps: seq<Step>)
    requires Tells(r.state, {}) && SameSession(steps)
    ensures Tells(RunOn(r, steps).state, Stray(r, steps))
    decreases |steps|
  {
    hide Tells, StrayAfter, Advance, After;
    if steps != [] {
      var before, step := steps[..|steps| - 1], steps[|steps| - 1];
      RunTells(r, before);
      StepTells(RunOn(r, before).state, step, Stray(r, before));
      StateAdvances(RunOn(r, before), step);
    }
  }

  /** The level is the last one set, else the one the session was bound at. */
  ghost predicate AtLevel(s: State, first: Level) {
    s.bound && s.level == match ReplayedLevel(s.events) case Some(level) => level case None => first
  }

  lemma StepAtLevel(s: State, step: Step, first: Level)
    requires AtLevel(s, first) && !step.Bind?
    ensures AtLevel(After(s, step), first)
  {
    hide ReplayedLevel, ReplayedGrants, Remaining, Shows, DecisionEvents, IncludeAll, Grants, Position;
    match step {
      case SetLevel(level, saved) =>
        OneEvent(s.events, LevelSet(level));
        assert s.events + [LevelSet(level)][..0] == s.events;
      case Begin(agent, callId, tool, access, saved) =>
        var e := Requested(Request(s.next + 1, callId, agent, tool, access));
        OneEvent(s.events, e);
        assert s.events + [e][..0] == s.events;
      case Revoke(grant, saved) =>
        OneEvent(s.events, Revoked(grant));
        assert s.events + [Revoked(grant)][..0] == s.events;
      case Decide(id, decision, saved) =>
        if IndexOf(s.queue, id).Some? {
          var r := s.queue[IndexOf(s.queue, id).value];
          var events := DecisionEvents(r, decision);
          NoLevelInDecision(r, decision);
          SameLevel(s.events, events);
          SameLevel(s.events, events[..if saved < |events| then saved else |events|]);
        }
      case _ =>
    }
  }

  lemma {:induction false} RunAtLevel(r: Run, steps: seq<Step>, first: Level)
    requires AtLevel(r.state, first) && SameSession(steps)
    ensures AtLevel(RunOn(r, steps).state, first)
    decreases |steps|
  {
    hide AtLevel, Advance, After;
    if steps != [] {
      var before, step := steps[..|steps| - 1], steps[|steps| - 1];
      RunAtLevel(r, before, first);
      StepAtLevel(RunOn(r, before).state, step, first);
      StateAdvances(RunOn(r, before), step);
    }
  }

  /** Resuming a session after any run of it. The level is restored exactly
      when the session says it or the default is what it was, and the grants
      exactly when no failed decision left one in the journal; what was waiting
      is gone. */
  lemma ResumeRestores(s: State, events: seq<Event>, start: Option<Level>, steps: seq<Step>)
    requires SameSession(steps)
    ensures var bound := Run(After(s, Bind(Some((events, start)))), map[], []);
            var end, stray := RunOn(bound, steps).state, Stray(bound, steps);
            var resumed := After(end, Bind(Some((end.events, start))));
            && (resumed.level == end.level <==>
                  ReplayedLevel(end.events).Some? || start.Some? || end.default == s.default)
            && (forall g :: g in resumed.grants <==> g in end.grants || g in stray)
            && (forall g | g in stray :: g !in end.grants)
            && (Clean(bound, steps, start) ==> resumed.grants == end.grants && resumed.level == end.level)
            && resumed.queue == [] && resumed.decisions == map[]
  {
    hide RunOn, ReplayedGrants, ReplayedLevel, Distinct, Stray, Clean;
    var bound := After(s, Bind(Some((events, start))));
    ReplayedDistinct(events);
    if Clean(Run(bound, map[], []), steps, start) {
      CleanRunAgrees(Run(bound, map[], []), steps, start);
    }
    RunTells(Run(bound, map[], []), steps);
    RunAtLevel(Run(bound, map[], []), steps, if start.Some? then start.value else s.default);
  }

  // ----- Two sessions that are not restored

  lemma OneMoreStep(r: Run, steps: seq<Step>, step: Step)
    ensures RunOn(r, steps + [step]) == Advance(RunOn(r, steps), step)
  {
    assert (steps + [step])[..|steps|] == steps;
  }

  lemma TwoSteps(s: State, first: Step, second: Step)
    ensures RunFrom(s, [first, second]).state == After(After(s, first), second)
  {
    hide After;
    OneMoreStep(Run(s, map[], []), [], first);
    OneMoreStep(Run(s, map[], []), [first], second);
    assert [] + [first] == [first] && [first] + [second] == [first, second];
  }

  lemma FourSteps(s: State, first: Step, second: Step, third: Step, fourth: Step)
    ensures RunFrom(s, [first, second, third, fourth]).state
         == After(After(After(After(s, first), second), third), fourth)
  {
    hide After;
    TwoSteps(s, first, second);
    OneMoreStep(Run(s, map[], []), [first, second], third);
    OneMoreStep(Run(s, map[], []), [first, second, third], fourth);
    assert [first, second] + [third] == [first, second, third];
    assert [first, second, third] + [fourth] == [first, second, third, fourth];
  }

  /** Remembering a two-file edit whose second grant cannot be saved: the
      decision fails and nothing is remembered, yet resuming the session
      remembers the first file. */
  lemma FailedDecisionLeaks(s: State)
    requires Start(s)
    ensures var first := Access(Edits, "a", None, true, None, []);
            var second := Access(Edits, "b", None, true, None, []);
            var both := Access(Edits, "a, b", None, true, None, [first, second]);
            var end := RunFrom(s, [SetSurface(Panel), Bind(Some(([], Some(Workspace)))),
                                   Begin(None, "c", "edit", both, 1), Decide(1, Remember, 2)]).state;
            && |end.queue| == 1 && end.decisions == map[] && end.grants == []
            && After(end, Bind(Some((end.events, Some(Workspace))))).grants == [GrantOf(first)]
  {
    var first := Access(Edits, "a", None, true, None, []);
    var second := Access(Edits, "b", None, true, None, []);
    var both := Access(Edits, "a, b", None, true, None, [first, second]);
    hide AfterBegin, AfterDecide;
    var show, bind := SetSurface(Panel), Bind(Some(([], Some(Workspace))));
    var begin, decide := Begin(None, "c", "edit", both, 1), Decide(1, Remember, 2);
    FourSteps(s, show, bind, begin, decide);
    AskedFirst(s, both);
    LeftByFailure(After(After(After(s, show), bind), begin), Request(1, "c", None, "edit", both), first, second);
  }

  /** The first request of a session just bound. */
  lemma AskedFirst(s: State, access: Access)
    requires Start(s)
    ensures var bound := After(After(s, SetSurface(Panel)), Bind(Some(([], Some(Workspace)))));
            var asked := After(bound, Begin(None, "c", "edit", access, 1));
            var request := Request(1, "c", None, "edit", access);
            && asked.bound && asked.queue == [request] && asked.events == [Requested(request)]
            && asked.grants == [] && asked.decisions == map[]
  {
    hide AfterBegin;
    var bound := After(After(s, SetSurface(Panel)), Bind(Some(([], Some(Workspace)))));
    BeginMeans(bound, None, "c", "edit", access, 1);
  }

  lemma TwoMembers(first: Access, second: Access)
    requires first.outside && second.outside
    ensures GrantsOfMembers([first, second]) == [GrantOf(first), GrantOf(second)]
  {
    assert [first, second][1..] == [second] && [second][1..] == [];
    assert GrantsOfMembers([second]) == [GrantOf(second)] + GrantsOfMembers([]);
    assert GrantsOfMembers([first, second]) == [GrantOf(first)] + GrantsOfMembers([second]);
  }

  /** What the failed decision leaves behind. */
  lemma LeftByFailure(s: State, r: Request, first: Access, second: Access)
    requires s.bound && s.queue == [r] && s.events == [Requested(r)] && s.grants == [] && s.decisions == map[]
    requires r.id == 1 && r.agent == None && r.access.members == [first, second] && first.outside && second.outside
    ensures var t := After(s, Decide(1, Remember, 2));
            t == s.(events := t.events) && ReplayedGrants(t.events) == [GrantOf(first)]
  {
    var made, grant := DecisionMade(r.callId, Remember, None), Granted(GrantOf(first));
    var events := DecisionEvents(r, Remember);
    TwoMembers(first, second);
    assert Grants(r.access)[0] == GrantOf(first) && |Grants(r.access)| == 2;
    assert events[..2] == [made, grant];
    assert s.events + events[..2] == ([Requested(r)] + [made]) + [grant];
    OneEvent([], Requested(r));
    OneEvent([Requested(r)], made);
    OneEvent([Requested(r)] + [made], grant);
    assert [] + [Requested(r)] == [Requested(r)];
  }

  /** A session without a level of its own: the default changes, and resuming
      takes the new one, though the session went on at the old one. */
  lemma DefaultMovesLevel(s: State)
    requires Start(s) && s.default == Workspace
    ensures var end := RunFrom(s, [Bind(Some(([], None))), SetDefault(Full)]).state;
            && end.level == Workspace
            && After(end, Bind(Some((end.events, None)))).level == Full
  {
    TwoSteps(s, Bind(Some(([], None))), SetDefault(Full));
  }
}
