/** `Executor` and `Daemon.Process` over the durable `FileStore`, with every outside call free to fail. */
module AgentCode {
  import opened Agent
  import opened Options

  datatype Outcome = Got(result: Result) | GotStopped | Error

  datatype Container = Container(service: string, assignment: string)

  /** A start that is found to have happened. */
  function Confirmed(a: Active): Active
  {
    if a.phase == Starting then a.(phase := Running) else a
  }

  class Daemon {
    const w: World
    var results: map<string, Result>
    var active: map<string, Active>

    /** The workspaces on disk, as what was restored, written and released leaves them. */
    ghost var disks: Disks
    /** What the process is doing, which a restart forgets. */
    ghost var busy: Option<Busy>
    ghost var trace: seq<Event>
    ghost var states: seq<State>

    ghost function Abs(): State
      reads this
    {
      State(results, active, disks, busy)
    }

    ghost predicate Valid()
      reads this
    {
      Run(w, trace, states) && |states| == |trace| + 1 && states[|trace|] == Abs()
    }

    ghost predicate At(c: Command, place: Place)
      reads this
    {
      Valid() && busy.Some? && busy.value.c == c && busy.value.at == place
    }

    /** Record a step, after the durable writes that belong to it. */
    ghost method Log(e: Event)
      requires Run(w, trace, states) && |states| == |trace| + 1
      requires Next(w, states[|trace|], e).Some?
      requires results == Next(w, states[|trace|], e).value.results && active == Next(w, states[|trace|], e).value.active
      modifies this`disks, this`busy, this`trace, this`states
      ensures Valid() && trace == old(trace) + [e] && Next(w, old(states[|trace|]), e) == Some(Abs())
    {
      hide Next;
      var t := Next(w, states[|trace|], e).value;
      RunExtends(w, trace, states, e, t);
      disks, busy, trace, states := t.disks, t.busy, trace + [e], states + [t];
    }

    constructor (w: World)
      ensures Valid() && this.w == w && trace == [] && busy.None?
    {
      this.w, results, active := w, map[], map[];
      disks, busy, trace, states := EMPTY.disks, None, [], [EMPTY];
    }

    /** The process stops, or `Process` returns an error: either way the command at hand is forgotten. */
    ghost method GiveUp()
      requires Valid()
      modifies this`disks, this`busy, this`trace, this`states
      ensures Valid() && busy.None? && old(trace) <= trace
    {
      hide Run;
      Log(Crash);
    }

    // -------------------------------------------------------------- the durable store

    /** `Commit`: result and assignment in one durable write; the process may stop before it. */
    method Commit(c: Command, result: Result, next: Option<Active>) returns (r: Outcome)
      requires At(c, Finished(result, next))
      modifies this
      ensures Valid() && old(trace) <= trace && (r == Error || r == Got(result))
      ensures r == Error ==> busy.None? && results == old(results) && active == old(active)
      ensures r.Got? ==>
        && busy == Some(Busy(c, Answered(result), old(busy).value.executes))
        && results == old(results)[c.id := result]
        && active == if next.Some? then old(active)[c.service := next.value] else old(active) - {c.service}
    {
      hide Run, Decide, DisksAfter;
      var ok: bool := *;
      if !ok {
        GiveUp();
        return Error;
      }
      results := results[c.id := result];
      active := if next.Some? then active[c.service := next.value] else active - {c.service};
      Log(On(c, Committed(result)));
      return Got(result);
    }

    /** `SetActive` for a stopped service; the process may stop before it. */
    method SetStopped(c: Command, record: Active) returns (r: Outcome)
      requires At(c, Halting(record))
      modifies this
      ensures Valid() && old(trace) <= trace && !r.Got? && results == old(results)
      ensures r == Error ==> busy.None? && active == old(active)
      ensures r == GotStopped ==>
        busy == Some(Busy(c, Reporting, old(busy).value.executes)) && active == old(active)[c.service := record]
    {
      hide Run, Decide, DisksAfter;
      var ok: bool := *;
      if !ok {
        GiveUp();
        return Error;
      }
      active := active[c.service := record];
      Log(On(c, Agent.SetStopped));
      return GotStopped;
    }

    /** `MarkStoppedReported`. */
    method MarkStoppedReported(c: Command) returns (ok: bool)
      requires At(c, Marking)
      modifies this
      ensures Valid() && old(trace) <= trace && results == old(results)
      ensures ok ==>
        && busy == Some(Busy(c, Deciding, old(busy).value.executes + 1))
        && c.service in old(active) && active == old(active)[c.service := old(active)[c.service].(stopReported := true)]
      ensures !ok ==> busy.None? && active == old(active)
    {
      hide Run, Decide, DisksAfter;
      ok := *;
      if !ok || c.service !in active || active[c.service].assignment != c.assignment || active[c.service].phase != Stopped {
        GiveUp();
        return false;
      }
      active := active[c.service := active[c.service].(stopReported := true)];
      Log(On(c, Marked));
    }

    /**
     `Reconcile`: a running container of no recorded assignment is removed, and one whose start was never confirmed
     is recorded as running. Removing one may fail, and then the rest is left for the next start of the process.
     */
    method Reconcile(running: seq<Container>) returns (ok: bool)
      requires Valid() && busy.None?
      modifies this
      ensures Valid() && busy.None? && old(trace) <= trace && results == old(results)
      ensures active.Keys == old(active).Keys
      ensures forall service :: service in active ==>
        active[service] == old(active)[service] ||
        (active[service] == Confirmed(old(active)[service]) && Container(service, active[service].assignment) in running)
      ensures ok ==> forall i :: 0 <= i < |running| ==>
        if Owned(old(active), running[i].service, running[i].assignment)
        then active[running[i].service] == Confirmed(old(active)[running[i].service])
        else Orphaned(running[i].service, running[i].assignment) in trace
    {
      hide Run, Advance;
      for i := 0 to |running|
        invariant Valid() && busy.None? && old(trace) <= trace && results == old(results)
        invariant active.Keys == old(active).Keys
        invariant forall service :: service in active ==>
          active[service] == old(active)[service] ||
          (active[service] == Confirmed(old(active)[service]) && Container(service, active[service].assignment) in running)
        invariant forall j :: 0 <= j < i ==>
          if Owned(old(active), running[j].service, running[j].assignment)
          then active[running[j].service] == Confirmed(old(active)[running[j].service])
          else Orphaned(running[j].service, running[j].assignment) in trace
      {
        var x := running[i];
        if !Owned(active, x.service, x.assignment) {
          var removed: bool := *;
          if !removed {
            return false;
          }
          Log(Orphaned(x.service, x.assignment));
        } else if active[x.service].phase == Starting {
          active := active[x.service := Confirmed(active[x.service])];
          Log(Adopt(x.service, x.assignment));
        }
      }
      return true;
    }

    // -------------------------------------------------------------- `Execute`

    ghost predicate Passed(c: Command)
      reads this
    {
      && At(c, Deciding)
      && c.id != "" && c.service != "" && c.assignment != "" && c.node == w.node
      && !(c.id in results && (results[c.id].status != FailedStatus || results[c.id].code != ""))
    }

    method Reject(c: Command) returns (r: Outcome)
      requires At(c, Deciding) && Decide(w.node, results, active, c) == ToReject
      modifies this
      ensures Valid() && old(trace) <= trace && r != GotStopped
      ensures r == Error ==> busy.None?
      ensures r.Got? ==> busy == Some(Busy(c, Answered(r.result), old(busy).value.executes))
    {
      hide Run, Decide, DisksAfter;
      Log(On(c, Decided));
      r := Commit(c, Result(FailedStatus, ""), if c.service in active then Some(active[c.service]) else None);
    }

    method ExecuteStart(c: Command) returns (r: Outcome)
      requires Passed(c) && c.kind == RestoreAndStart
      modifies this
      ensures Valid() && old(trace) <= trace && r != GotStopped
      ensures r == Error ==> busy.None?
      ensures r.Got? ==> busy == Some(Busy(c, Answered(r.result), old(busy).value.executes))
    {
      hide Run, ActiveAfter;
      if !c.connected || (c.service in active && active[c.service].assignment != c.assignment &&
                          active[c.service].phase != Stopped) {
        r := Reject(c);
        return;
      }
      if c.service in active && active[c.service].phase == Running {
        r := AnswerStarted(c);
        return;
      }
      if c.service in active && active[c.service].phase == Starting {
        assert Decide(w.node, results, active, c) == ToResume;
        r := Resume(c);
      } else {
        assert Decide(w.node, results, active, c) == ToRestore;
        r := Restore(c);
      }
    }

    method AnswerStarted(c: Command) returns (r: Outcome)
      requires At(c, Deciding) && Decide(w.node, results, active, c) == ToAnswerStarted && c.service in active
      modifies this
      ensures Valid() && old(trace) <= trace && r != GotStopped
      ensures r == Error ==> busy.None?
      ensures r.Got? ==> busy == Some(Busy(c, Answered(r.result), old(busy).value.executes))
    {
      hide Run, Decide, DisksAfter;
      Log(On(c, Decided));
      r := Commit(c, Result(StartedStatus, ""), Some(active[c.service]));
    }

    method Resume(c: Command) returns (r: Outcome)
      requires At(c, Deciding) && Decide(w.node, results, active, c) == ToResume
      modifies this
      ensures Valid() && old(trace) <= trace && r != GotStopped
      ensures r == Error ==> busy.None?
      ensures r.Got? ==> busy == Some(Busy(c, Answered(r.result), old(busy).value.executes))
    {
      hide Run, Decide, DisksAfter;
      var ok: bool := *;
      if !ok {
        GiveUp();
        return Error;
      }
      Log(On(c, Resumed));
      r := StartContainer(c);
    }

    /** The workspace is restored before the assignment is recorded, and recorded before the start. */
    method Restore(c: Command) returns (r: Outcome)
      requires At(c, Deciding) && Decide(w.node, results, active, c) == ToRestore
      modifies this
      ensures Valid() && old(trace) <= trace && r != GotStopped
      ensures r == Error ==> busy.None?
      ensures r.Got? ==> busy == Some(Busy(c, Answered(r.result), old(busy).value.executes))
    {
      hide Run, Decide, DisksAfter;
      var ok: bool, replaced: bool, lost: bool := *, *, *;
      if !ok {
        Log(On(c, if replaced then RestoreReplaced else if lost then RestoreLost else RestoreFailed));
        return Error;
      }
      Log(On(c, Restored));
      ok := *;
      if !ok {
        GiveUp();
        return Error;
      }
      active := active[c.service := Active(c.assignment, Starting, false)];
      Log(On(c, Recorded));
      r := StartContainer(c);
    }

    method StartContainer(c: Command) returns (r: Outcome)
      requires At(c, Recorded')
      modifies this
      ensures Valid() && old(trace) <= trace && r != GotStopped
      ensures r == Error ==> busy.None?
      ensures r.Got? ==> busy == Some(Busy(c, Answered(r.result), old(busy).value.executes))
    {
      hide Run, Decide, DisksAfter;
      var ok: bool, terminal: bool := *, *;
      if ok {
        Log(On(c, StartOk));
        r := Commit(c, Result(StartedStatus, ""), Some(Active(c.assignment, Running, false)));
      } else if terminal {
        var code: string := *;
        Log(On(c, StartTerminal(code)));
        r := Commit(c, Result(FailedStatus, code), None);
      } else {
        Log(On(c, StartFailed));
        r := Error;
      }
    }

    method ExecuteStop(c: Command) returns (r: Outcome)
      requires Passed(c) && c.kind == StopAndSync
      modifies this
      ensures Valid() && old(trace) <= trace
      ensures r == Error ==> busy.None?
      ensures r.Got? ==> busy == Some(Busy(c, Answered(r.result), old(busy).value.executes))
      ensures r == GotStopped ==> busy == Some(Busy(c, Reporting, old(busy).value.executes))
      ensures r == GotStopped ==> Decide(w.node, old(results), old(active), c) != ToSync
    {
      hide Run, Advance, ActiveAfter, Next;
      if c.service in active && active[c.service].assignment != c.assignment {
        r := Reject(c);
      } else if c.service in active && active[c.service].phase == Stopped && active[c.service].stopReported {
        r := Sync(c);
      } else {
        r := Halt(c);
      }
    }

    /** The draft is made and staged by the first call that comes to it; later ones take it up. Any call may fail. */
    method Sync(c: Command) returns (r: Outcome)
      requires At(c, Deciding) && Decide(w.node, results, active, c) == ToSync
      modifies this
      ensures Valid() && old(trace) <= trace && r != GotStopped
      ensures r == Error ==> busy.None?
      ensures r.Got? ==> busy == Some(Busy(c, Answered(r.result), old(busy).value.executes))
    {
      hide Run, Decide, DisksAfter;
      var ok: bool := *;
      if !ok {
        Log(On(c, SyncFailed));
        return Error;
      }
      Draft(c);
      ok := *;
      if !ok {
        Log(On(c, SyncFailed));
        return Error;
      }
      Log(On(c, SyncOk));
      r := Commit(c, Result(SyncedStatus, ""), None);
    }

    ghost method Draft(c: Command)
      requires At(c, Deciding) && Decide(w.node, results, active, c) == ToSync
      modifies this`disks, this`busy, this`trace, this`states
      ensures Valid() && old(trace) <= trace && busy == Some(Busy(c, Uploading, old(busy).value.executes))
      ensures c.id in disks.staged
      ensures disks == if c.id in old(disks).staged then old(disks)
                       else old(disks).(staged := old(disks).staged[c.id := ContentsOf(old(disks), c.service)])
    {
      hide Run, Decide;
      Log(On(c, if c.id in disks.staged then Reloaded else Drafted));
    }

    /** Stop the container if there is one to stop, and record the service as stopped. */
    method Halt(c: Command) returns (r: Outcome)
      requires At(c, Deciding)
      requires var move := Decide(w.node, results, active, c);
        move == ToHaltNothing || move == ToStop || (move == ToReport && c.service in active)
      modifies this
      ensures Valid() && old(trace) <= trace && !r.Got?
      ensures r == Error ==> busy.None?
      ensures r == GotStopped ==> busy == Some(Busy(c, Reporting, old(busy).value.executes))
    {
      hide Run, Decide, DisksAfter;
      var move, ok: bool := Decide(w.node, results, active, c), *;
      if move == ToHaltNothing {
        Log(On(c, NoAssignment));
        r := SetStopped(c, Active(c.assignment, Stopped, false));
      } else if move == ToReport {
        var record := active[c.service];
        Log(On(c, StillStopped));
        r := SetStopped(c, record);
      } else if ok {
        Log(On(c, StopOk));
        r := SetStopped(c, Active(c.assignment, Stopped, false));
      } else {
        Log(On(c, StopFailed));
        r := Error;
      }
    }

    /**
     `Execute`: a stored result that is no failure, or a failure with a code, is returned without touching anything. Any
     other stored result makes no difference.
     */
    method Execute(c: Command) returns (r: Outcome)
      requires At(c, Deciding)
      modifies this
      ensures Valid() && old(trace) <= trace
      ensures r == Error ==> busy.None?
      ensures r.Got? ==> busy == Some(Busy(c, Answered(r.result), old(busy).value.executes))
      ensures r == GotStopped ==> busy == Some(Busy(c, Reporting, old(busy).value.executes))
      ensures r == GotStopped ==> Decide(w.node, old(results), old(active), c) != ToSync
      ensures c.id in old(results) && (old(results)[c.id].status != FailedStatus || old(results)[c.id].code != "") ==>
        && r == Got(old(results)[c.id]) && results == old(results) && active == old(active)
        && trace == old(trace) + [On(c, Replay)]
    {
      hide Run, ActiveAfter;
      if c.id in results && (results[c.id].status != FailedStatus || results[c.id].code != "") {
        var result := results[c.id];
        assert Decide(w.node, results, active, c) == ToReplay;
        LogReplay(c);
        return Got(result);
      }
      if c.id == "" || c.service == "" || c.assignment == "" || c.node != w.node || c.kind == Unsupported {
        assert Decide(w.node, results, active, c) == ToReject;
        r := Reject(c);
      } else if c.kind == RestoreAndStart {
        r := ExecuteStart(c);
      } else {
        r := ExecuteStop(c);
      }
    }

    ghost method LogReplay(c: Command)
      requires At(c, Deciding) && Decide(w.node, results, active, c) == ToReplay && c.id in results
      modifies this`disks, this`busy, this`trace, this`states
      ensures Valid() && trace == old(trace) + [On(c, Replay)]
      ensures busy == Some(Busy(c, Answered(results[c.id]), old(busy).value.executes))
    {
      hide Run, Decide, DisksAfter;
      Log(On(c, Replay));
    }

    // -------------------------------------------------------------- `Process`

    /** One stopped report and the write that records it. */
    method ReportStopped(c: Command) returns (ok: bool)
      requires At(c, Reporting)
      modifies this
      ensures Valid() && old(trace) <= trace
      ensures !ok ==> busy.None?
      ensures ok ==> busy == Some(Busy(c, Deciding, old(busy).value.executes + 1))
    {
      hide Run, Decide, DisksAfter;
      ok := *;
      if !ok {
        GiveUp();
        return;
      }
      Log(On(c, ReportAccepted));
      ok := MarkStoppedReported(c);
    }

    /** The loop of `Process`: it ends, because a second pass can only sync. */
    method ExecuteUntilAnswered(c: Command) returns (r: Outcome)
      requires At(c, Deciding) && busy.value.executes == 1
      modifies this
      ensures Valid() && old(trace) <= trace && r != GotStopped
      ensures r == Error ==> busy.None?
      ensures r.Got? ==> busy.Some? && busy.value.c == c && busy.value.at == Answered(r.result)
    {
      hide Run, Decide, SecondPassSyncs;
      ghost var executes := 1;
      while true
        invariant At(c, Deciding) && busy.value.executes == executes && 1 <= executes <= 2
        invariant old(trace) <= trace
        decreases 2 - executes
      {
        SecondPass(w, trace, states);
        r := Execute(c);
        if r != GotStopped {
          return;
        }
        var ok := ReportStopped(c);
        if !ok {
          return Error;
        }
        executes := executes + 1;
      }
    }

    /** `Process`: true once the command is acknowledged. */
    method Process(id: string) returns (acknowledged: bool)
      requires Valid() && busy.None? && w.command(id).id == id
      modifies this
      ensures Valid() && busy.None? && old(trace) <= trace
      ensures acknowledged ==> trace != [] && trace[|trace| - 1] == On(w.command(id), Acked)
    {
      hide Run, Decide, DisksAfter;
      var c := w.command(id);
      Log(On(c, Begin));
      var r := ExecuteUntilAnswered(c);
      if r == Error {
        return false;
      }
      acknowledged := Conclude(c, r.result);
    }

    /** Report, release, acknowledge, in this order; any call may fail. */
    method Conclude(c: Command, result: Result) returns (acknowledged: bool)
      requires At(c, Answered(result))
      modifies this
      ensures Valid() && busy.None? && old(trace) <= trace
      ensures acknowledged ==> trace != [] && trace[|trace| - 1] == On(c, Acked)
      ensures acknowledged && result.status == SyncedStatus ==>
        trace == old(trace) + [On(c, SyncReported), On(c, Released), On(c, Acked)]
    {
      hide Run, Decide, Next;
      var ok := true;
      if result.status == StartedStatus {
        ok := ReportStarted(c, result);
      } else if result.status == SyncedStatus {
        ok := ReportSyncedAndRelease(c, result);
      }
      acknowledged := false;
      if ok {
        acknowledged := Ack(c);
      }
    }

    method ReportStarted(c: Command, result: Result) returns (ok: bool)
      requires At(c, Answered(result)) && result.status == StartedStatus
      modifies this
      ensures Valid() && old(trace) <= trace
      ensures if ok then At(c, Acknowledging(result)) else busy.None?
    {
      hide Run, Decide, DisksAfter;
      ok := *;
      if ok {
        Log(On(c, StartReported));
      } else {
        GiveUp();
      }
    }

    method ReportSyncedAndRelease(c: Command, result: Result) returns (ok: bool)
      requires At(c, Answered(result)) && result.status == SyncedStatus
      modifies this
      ensures Valid() && old(trace) <= trace
      ensures if ok then At(c, Acknowledging(Result(SyncedStatus, ""))) else busy.None?
      ensures ok ==> trace == old(trace) + [On(c, SyncReported), On(c, Released)]
    {
      hide Run, Decide, DisksAfter;
      ok := *;
      if ok {
        Log(On(c, SyncReported));
        ok := Release(c);
      } else {
        GiveUp();
      }
    }

    /** A release may fail also after it has removed the directory. */
    method Release(c: Command) returns (ok: bool)
      requires At(c, Releasing)
      modifies this
      ensures Valid() && old(trace) <= trace
      ensures if ok then At(c, Acknowledging(Result(SyncedStatus, ""))) && trace == old(trace) + [On(c, Released)] else busy.None?
    {
      hide Run, Decide, DisksAfter;
      ok := *;
      var removed: bool := *;
      if ok || removed {
        Log(On(c, Released));
      }
      if !ok {
        GiveUp();
      }
    }

    method Ack(c: Command) returns (ok: bool)
      requires Valid() && busy.Some? && busy.value.c == c
      requires busy.value.at.Acknowledging? || (busy.value.at.Answered? && busy.value.at.result.status == FailedStatus)
      modifies this
      ensures Valid() && busy.None? && old(trace) <= trace
      ensures ok ==> trace == old(trace) + [On(c, Acked)]
    {
      hide Run, Decide, DisksAfter;
      ok := *;
      if ok {
        Log(On(c, Acked));
      } else {
        GiveUp();
      }
    }
  }

  /** Where a second pass stands: its decision can only be to sync. */
  lemma SecondPass(w: World, trace: seq<Event>, states: seq<State>)
    requires Run(w, trace, states) && |states| == |trace| + 1
    ensures var s := states[|trace|];
      s.busy.Some? && s.busy.value.executes == 2 && s.busy.value.at == Deciding ==>
        Decide(w.node, s.results, s.active, s.busy.value.c) == ToSync
  {
    hide Run, Decide;
    AtMostTwoExecutes(w, trace, states, |trace|);
  }
}
