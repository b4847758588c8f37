/**
  The permission level applied to each call before its tool runs, and the record
  of which look at it let each tool start.
 */
module Gate {
  import opened Permissions
  import opened Transcript
  import opened Wrappers

  /** What the user decided, and the level once the wait was over. */
  datatype Approval = Approval(decision: Decision, level: Level)

  /** One look at a call: the level it saw first, what the call would touch at
      that moment, the level and grants that were assessed, and the user's
      decision when it was asked for. */
  datatype Check = Check(
    call: ToolCall,
    seen: Level,
    access: Option<Access>,
    level: Level,
    grants: seq<Grant>,
    approval: Option<Approval>
  )

  /** Browser control needs Full; closing or stopping a browser never does. */
  predicate BrowserRefused(call: ToolCall, level: Level) {
    call.name == "browser" && level != Full && !call.closes
  }

  /** Whether the call runs on its own: it may ask, is refused or works outside. */
  predicate IsGated(c: Check) {
    || BrowserRefused(c.call, c.seen)
    || match c.access
       case None => c.call.name == "exec"
       case Some(access) => access.outside || Assessed(c.level, c.grants, access) != Allow
  }

  /** Whether the call runs without asking. */
  predicate Allowed(c: Check) {
    && !BrowserRefused(c.call, c.seen)
    && match c.access
       case None => c.call.name != "exec"
       case Some(access) => Assessed(c.level, c.grants, access) == Allow
  }

  /** Whether the user was asked, agreed, and did not choose Read meanwhile. */
  predicate Approved(c: Check) {
    && !BrowserRefused(c.call, c.seen)
    && c.access.Some? && Assessed(c.level, c.grants, c.access.value) == Ask
    && c.approval.Some? && c.approval.value.decision != Deny && c.approval.value.level != Read
  }

  predicate Passes(c: Check) { Allowed(c) || Approved(c) }

  /** A call that goes into a batch is one that runs without asking and, as far
      as it touches files, inside the folder. */
  lemma UngatedIsAllowedInside(c: Check)
    ensures !IsGated(c) <==> Allowed(c) && (c.access.Some? ==> !c.access.value.outside)
  {
  }

  // ----- Which check let a tool start

  /** A tool started after the check at `at`, alone or together with others. */
  datatype Start = Start(at: nat, together: bool)

  /** All checks so far and all tools started so far, in order. */
  datatype Log = Log(checks: seq<Check>, starts: seq<Start>)

  function Started(log: Log): (ids: seq<string>)
    requires forall k | 0 <= k < |log.starts| :: log.starts[k].at < |log.checks|
    ensures |ids| == |log.starts|
    ensures forall k | 0 <= k < |ids| :: ids[k] == log.checks[log.starts[k].at].call.id
  {
    seq(|log.starts|, k requires 0 <= k < |log.starts| => log.checks[log.starts[k].at].call.id)
  }

  /** Tools that start together, each after its own of neighbouring checks. */
  function Together(first: nat, n: nat): (starts: seq<Start>)
    ensures |starts| == n && forall k | 0 <= k < n :: starts[k] == Start(first + k, true)
  {
    seq(n, k requires 0 <= k => Start(first + k, true))
  }

  lemma NobodyStarts(starts: seq<Start>, first: nat)
    ensures starts + Together(first, 0) == starts
  {
  }

  lemma OneStartsMore(starts: seq<Start>, first: nat, k: nat)
    ensures starts + Together(first, k) + [Start(first + k, true)] == starts + Together(first, k + 1)
  {
  }

  predicate Before(log: Log, at: nat) { forall k | 0 <= k < |log.starts| :: log.starts[k].at < at }

  /** Each tool that was launched has a check of its own that let it start; one
      started together with others has a check that was not gated. */
  ghost predicate Vetted(log: Log, launched: multiset<string>) {
    && Before(log, |log.checks|)
    && (forall j, k | 0 <= j < k < |log.starts| :: log.starts[j].at < log.starts[k].at)
    && (forall k | 0 <= k < |log.starts| ::
          var c := log.checks[log.starts[k].at];
          Passes(c) && (log.starts[k].together ==> !IsGated(c)))
    && launched == multiset(Started(log))
  }

  /** What a tool may touch that some check let start: at Read only reads inside
      the folder, at Workspace an outside path only with remembered grants or an
      approval, and a browser only at Full. */
  ghost predicate StartsWithin(c: Check) {
    && (c.call.name == "browser" && !c.call.closes ==> c.seen == Full)
    && (c.access.None? ==> c.call.name != "exec")
    && (c.access.Some? ==>
          var access := c.access.value;
          && (c.level == Read ==> access.kind == Reads && !access.outside)
          && (c.level == Workspace && access.outside ==>
                Approved(c) || forall k | 0 <= k < |Grants(access)| :: Authorized(c.grants, Grants(access)[k])))
  }

  /** Every tool that was launched stayed within what its check allowed, and one
      started together with others inside the folder. */
  lemma LaunchedWithin(log: Log, launched: multiset<string>, k: nat)
    requires Vetted(log, launched) && k < |log.starts|
    ensures var c := log.checks[log.starts[k].at];
            && c.call.id in launched && StartsWithin(c)
            && (log.starts[k].together && c.access.Some? ==> !c.access.value.outside)
  {
    hide Grants, Authorized;
    assert Started(log)[k] in multiset(Started(log));
  }

  lemma OneMoreCheck(log: Log, launched: multiset<string>, c: Check)
    requires Vetted(log, launched)
    ensures Vetted(log.(checks := log.checks + [c]), launched)
    ensures Before(log.(checks := log.checks + [c]), |log.checks|)
  {
    hide IsGated, Passes;
    assert Started(log.(checks := log.checks + [c])) == Started(log);
  }

  lemma OneMoreStart(log: Log, launched: multiset<string>, at: nat, together: bool)
    requires Vetted(log, launched) && at < |log.checks| && Before(log, at)
    requires if together then !IsGated(log.checks[at]) else Passes(log.checks[at])
    ensures var next := log.(starts := log.starts + [Start(at, together)]);
            Vetted(next, launched + multiset{log.checks[at].call.id}) && Before(next, at + 1)
  {
    if together {
      UngatedIsAllowedInside(log.checks[at]);
    }
    hide IsGated, Passes;
    var next := log.(starts := log.starts + [Start(at, together)]);
    assert Started(next) == Started(log) + [log.checks[at].call.id];
  }

  /** One check for each call, in order, and none of them gated. */
  ghost predicate AllOpen(checks: seq<Check>, batch: seq<ToolCall>) {
    |checks| == |batch| && forall k | 0 <= k < |checks| :: checks[k].call == batch[k] && !IsGated(checks[k])
  }

  /** The calls of a batch were checked in order, starting at `first`, and none
      was gated; no tool started since. */
  ghost predicate Cleared(log: Log, first: nat, batch: seq<ToolCall>) {
    && first + |batch| <= |log.checks| && Before(log, first)
    && AllOpen(log.checks[first..first + |batch|], batch)
  }

  lemma ClearedAt(log: Log, first: nat, batch: seq<ToolCall>, k: nat)
    requires Cleared(log, first, batch) && k < |batch|
    ensures log.checks[first + k].call == batch[k] && !IsGated(log.checks[first + k])
  {
    hide IsGated;
    assert log.checks[first..first + |batch|][k] == log.checks[first + k];
  }

  lemma NothingCleared(log: Log, at: nat)
    requires Before(log, at) && at <= |log.checks|
    ensures Cleared(log, |log.checks|, [])
  {
  }

  /** Another check adds its call to the batch, unless it is gated. */
  lemma OneMoreCleared(log: Log, first: nat, batch: seq<ToolCall>, c: Check)
    requires Cleared(log, first, batch) && |log.checks| == first + |batch|
    ensures Cleared(Log(log.checks + [c], log.starts), first, batch)
    ensures !IsGated(c) ==> Cleared(Log(log.checks + [c], log.starts), first, batch + [c.call])
  {
    hide IsGated;
    var next := Log(log.checks + [c], log.starts);
    var looked := log.checks[first..first + |batch|];
    assert next.checks[first..first + |batch|] == looked;
    assert next.checks[first..first + |batch| + 1] == looked + [c];
  }
}
