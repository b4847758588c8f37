/** The shared state itself: what the lock guards, changed in place. */
module SharedPermissions {
  import opened Permissions
  import opened Wrappers

  class Shared {
    var level: Level
    var default: Level
    var grants: seq<Grant>
    var queue: seq<Request>
    var decisions: map<nat, Decision>
    var next: nat
    var surface: Surface
    /** Whether a session is bound, and what it has saved. */
    var bound: bool
    var events: seq<Event>

    constructor ()
      ensures Start(View()) && level == Workspace && surface == NoSurface
    {
      level, default, grants, queue, decisions := Workspace, Workspace, [], [], map[];
      next, surface, bound, events := 0, NoSurface, false, [];
    }

    ghost function View(): State
      reads this
    {
      State(level, default, grants, queue, decisions, next, surface, bound, events)
    }

    /** Saves an event; saving may fail at any time. */
    method Journal(event: Event) returns (ok: bool)
      modifies this`events
      ensures ok ==> events == if bound then old(events) + [event] else old(events)
      ensures !ok ==> bound && events == old(events)
    {
      if !bound {
        return true;
      }
      ok := *;
      if ok {
        events := events + [event];
      }
    }

    method SetLevel(level: Level) returns (ok: bool, ghost saved: nat)
      modifies this
      ensures View() == After(old(View()), Step.SetLevel(level, saved))
      ensures ok <==> this.level == level
      ensures !ok ==> View() == old(View())
    {
      saved := 0;
      if this.level == level {
        return true, saved;
      }
      ok := Journal(LevelSet(level));
      if ok {
        saved := 1;
        this.level := level;
      } else {
        assert old(events) + [LevelSet(level)][..0] == old(events);
      }
    }

    method Assess(access: Access) returns (at: Level, verdict: Verdict)
      ensures at == level && verdict == Assessed(level, grants, access)
      ensures verdict == Allow <==>
              || level == Full
              || (level == Read && access.kind == Reads && !access.outside)
              || (level == Workspace && (!access.outside || AllCovered(grants, access)))
      ensures verdict == Unavailable <==> level == Read && (access.kind != Reads || access.outside)
    {
      AssessedMeans(level, grants, access);
      hide AllCovered;
      at := level;
      match level {
        case Full => verdict := Allow;
        case Read => verdict := if access.kind == Reads && !access.outside then Allow else Unavailable;
        case Workspace =>
          if !access.outside {
            return at, Allow;
          }
          var needed := Grants(access);
          for k := 0 to |needed|
            invariant forall i | 0 <= i < k :: Authorized(grants, needed[i])
          {
            var known := false;
            for j := 0 to |grants|
              invariant known <==> exists i | 0 <= i < j :: grants[i].Authorizes(needed[k])
            {
              known := known || grants[j].Authorizes(needed[k]);
            }
            if !known {
              assert !Authorized(grants, needed[k]);
              return at, Ask;
            }
          }
          verdict := Allow;
      }
    }

    /** Queues a request; nothing when no surface can show it. */
    method Begin(agent: Option<string>, callId: string, tool: string, access: Access)
      returns (request: Option<Request>, ghost saved: nat)
      modifies this
      ensures View() == After(old(View()), Step.Begin(agent, callId, tool, access, saved))
      ensures request.Some? ==> request.value.id == old(next) + 1 && queue == old(queue) + [request.value]
      ensures request.None? ==> queue == old(queue)
    {
      saved := 0;
      if surface == NoSurface || (surface == Inline && agent.Some?) {
        return None, saved;
      }
      next := next + 1;
      var r := Request(next, callId, agent, tool, access);
      var ok;
      if agent.Some? {
        // The collaborator's own session.
        ok := *;
      } else {
        ok := Journal(Requested(r));
      }
      if !ok {
        assert old(events) + [Requested(r)][..0] == old(events);
        return None, saved;
      }
      saved := 1;
      queue := queue + [r];
      request := Some(r);
    }

    /** Saves one grant after the other. */
    method JournalGrants(more: seq<Grant>) returns (ok: bool, ghost saved: nat)
      modifies this`events
      ensures saved <= |more| && (ok <==> saved == |more|) && (!ok ==> bound)
      ensures events == if bound then old(events) + GrantEvents(more)[..saved] else old(events)
    {
      saved := 0;
      assert GrantEvents(more)[..0] == [];
      for k := 0 to |more|
        invariant saved == k
        invariant events == if bound then old(events) + GrantEvents(more)[..saved] else old(events)
      {
        ok := Journal(Granted(more[k]));
        if !ok {
          return;
        }
        saved := saved + 1;
        assert GrantEvents(more)[..k + 1] == GrantEvents(more)[..k] + [Granted(more[k])];
      }
      ok := true;
    }

    method Remember(more: seq<Grant>)
      modifies this`grants
      ensures grants == IncludeAll(old(grants), more)
    {
      for k := 0 to |more|
        invariant grants == IncludeAll(old(grants), more[..k])
      {
        if more[k] !in grants {
          grants := grants + [more[k]];
        }
        assert more[..k + 1][..k] == more[..k];
      }
      assert more[..|more|] == more;
    }

    /** What a decision saves before it takes effect. */
    method JournalDecision(r: Request, decision: Decision) returns (ok: bool, ghost saved: nat)
      modifies this`events
      ensures (View(), ok) == Appended(old(View()), DecisionEvents(r, decision), saved)
    {
      hide Grants, Appended;
      ghost var own, grants := OwnEvents(r, decision), SavedGrants(r, decision);
      ghost var before := View();
      saved := 0;
      AppendedParts(before, own, GrantEvents(grants), 0);
      if r.agent.None? {
        var single := decision == Decision.Remember && r.access.members == [];
        ok := Journal(DecisionMade(r.callId, decision, if single then Some(GrantOf(r.access)) else None));
        if !ok {
          assert View() == before;
          return;
        }
      }
      ghost var more;
      if decision == Decision.Remember && (r.agent.Some? || r.access.members != []) {
        ok, more := JournalGrants(Grants(r.access));
      } else {
        ok, more := true, 0;
      }
      saved := |own| + more;
      AppendedParts(before, own, GrantEvents(grants), more);
      assert events == if bound then before.events + own + GrantEvents(grants)[..more] else before.events;
      assert View() == before.(events := events);
    }

    /** Decides a waiting request. A decision that cannot be saved leaves the
        queue, the decisions and the grants as they were. */
    method Decide(id: nat, decision: Decision) returns (ok: bool, ghost saved: nat)
      modifies this
      ensures View() == After(old(View()), Step.Decide(id, decision, saved))
      ensures ok ==> id in decisions && decisions[id] == decision
      ensures !ok ==> View() == old(View()).(events := events)
    {
      hide DecisionEvents, Grants, IncludeAll;
      saved := 0;
      var index := IndexOf(queue, id);
      if index.None? {
        return false, saved;
      }
      var r := queue[index.value];
      ok, saved := JournalDecision(r, decision);
      if !ok {
        return;
      }
      if decision == Decision.Remember {
        Remember(Grants(r.access));
      }
      queue := queue[..index.value] + queue[index.value + 1..];
      decisions := decisions[id := decision];
    }

    /** One look of a waiting turn: its decision, or the end of the wait. */
    method WaitOnce(id: nat, cancelled: bool) returns (asked: Option<Asked>)
      modifies this
      ensures (View(), asked) == AfterWait(old(View()), id, cancelled)
    {
      if id in decisions {
        var decision := decisions[id];
        decisions := decisions - {id};
        return Some(Decided(decision));
      }
      if cancelled || surface == NoSurface {
        queue := Remaining(queue, id);
        return Some(Cancelled);
      }
      asked := None;
    }

    method Abandon(id: nat)
      modifies this
      ensures View() == After(old(View()), Step.Abandon(id))
    {
      queue := Remaining(queue, id);
      decisions := decisions - {id};
    }

    method Revoke(grant: Grant) returns (ok: bool, ghost saved: nat)
      modifies this
      ensures View() == After(old(View()), Step.Revoke(grant, saved))
      ensures !ok ==> View() == old(View())
      ensures ok ==> grant in old(grants) && |grants| == |old(grants)| - 1
    {
      saved := 0;
      var index := Position(grants, grant);
      if index.None? {
        return false, saved;
      }
      ok := Journal(Revoked(grant));
      if ok {
        saved := 1;
        grants := grants[..index.value] + grants[index.value + 1..];
      } else {
        assert old(events) + [Revoked(grant)][..0] == old(events);
      }
    }

    /** Reads the last level and the grants still remembered from a session. */
    method Replay(saved: seq<Event>) returns (last: Option<Level>, remembered: seq<Grant>)
      ensures last == ReplayedLevel(saved) && remembered == ReplayedGrants(saved)
    {
      last, remembered := None, [];
      for k := 0 to |saved|
        invariant last == ReplayedLevel(saved[..k]) && remembered == ReplayedGrants(saved[..k])
      {
        assert saved[..k + 1][..k] == saved[..k];
        match saved[k] {
          case LevelSet(level) => last := Some(level);
          case Granted(grant) => remembered := Include(remembered, grant);
          case DecisionMade(_, Remember, Some(grant)) => remembered := Include(remembered, grant);
          case Revoked(grant) => remembered := Without(remembered, grant);
          case _ =>
        }
      }
      assert saved[..|saved|] == saved;
    }

    /** Restores the level and the grants of a session. */
    method Bind(session: Option<(seq<Event>, Option<Level>)>)
      modifies this
      ensures View() == After(old(View()), Step.Bind(session))
    {
      hide ReplayedGrants, ReplayedLevel, AfterBegin, AfterDecide, AfterWait, AfterRevoke, Remaining, Appended;
      ghost var cleared := View().(queue := [], decisions := map[], bound := session.Some?);
      queue, decisions, grants, level := [], map[], [], default;
      events, bound := [], session.Some?;
      if session.Some? {
        var (saved, start) := session.value;
        var last, remembered := Replay(saved);
        level := if last.Some? then last.value else if start.Some? then start.value else default;
        grants, events := remembered, saved;
        assert level == LevelOf(saved, start, default);
        assert View() == cleared.(level := level, grants := grants, events := events);
      }
    }
  }
}
