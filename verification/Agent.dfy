/**
 The agent's handling of one command after another: decide, act on workspace and containers, write the
 durable state, report, acknowledge. The process may stop between any two of these steps; what it has
 written stays, what it was doing is forgotten, and any command may be delivered again.
 */
module Agent {
  import opened Options

  datatype Kind = RestoreAndStart | StopAndSync | Unsupported
  datatype Command = Command(
    id: string, kind: Kind, node: string, service: string, assignment: string, connected: bool)

  datatype Phase = Starting | Running | Stopped
  datatype Active = Active(assignment: string, phase: Phase, stopReported: bool)

  datatype Status = StartedStatus | SyncedStatus | FailedStatus
  datatype Result = Result(status: Status, code: string)

  /** Results that are never executed again: anything but a failure without a code. */
  predicate Final(r: Result)
  {
    r.status != FailedStatus || r.code != ""
  }

  /** Where the agent is in `Process` for the command at hand. */
  datatype Place =
    | Deciding
    | WorkspaceRestored
    | Recorded'
    | Finished(result: Result, next: Option<Active>)
    | Halting(record: Active)
    | Reporting
    | Marking
    | Uploading
    | Answered(result: Result)
    | Releasing
    | Acknowledging(result: Result)

  datatype Busy = Busy(c: Command, at: Place, executes: nat)

  /**
   What is on the node's disk, told apart by where it comes from: every write that puts contents in place has a
   number of its own. Each service has contents or nothing, and each command may have staged the draft of a sync,
   made from the contents of that moment.
   */
  datatype Disks = Disks(contents: map<string, nat>, staged: map<string, Option<nat>>, next: nat)

  datatype State = State(results: map<string, Result>, active: map<string, Active>, disks: Disks, busy: Option<Busy>)

  const EMPTY := State(map[], map[], Disks(map[], map[], 0), None)

  datatype What =
    | Begin | Replay | Decided | Restored | RestoreFailed | RestoreReplaced | RestoreLost | Recorded | Resumed
    | StartOk | StartTerminal(code: string) | StartFailed
    | NoAssignment | StopOk | StopFailed | StillStopped | SetStopped | ReportAccepted | Marked
    | Drafted | Reloaded | SyncOk | SyncFailed
    | Committed(result: Result) | StartReported | SyncReported | Released | Acked | Abandoned

  /** A step for a command, a stop of the process, or what is done about a container found running at a start. */
  datatype Event =
    | On(c: Command, what: What)
    | Crash
    | Adopt(service: string, assignment: string)
    | Orphaned(service: string, assignment: string)

  /** This node's id, and the command that each command id stands for. */
  datatype World = World(node: string, command: string -> Command)

  // ---------------------------------------------------------------- one decision of `execute`

  datatype Move =
    | ToReplay | ToReject | ToAnswerStarted | ToRestore | ToResume | ToHaltNothing | ToStop | ToReport | ToSync

  function Decide(node: string, results: map<string, Result>, active: map<string, Active>, c: Command): Move
  {
    if c.id in results && Final(results[c.id]) then ToReplay
    else if c.id == "" || c.service == "" || c.assignment == "" || c.node != node then ToReject
    else
      match c.kind
      case RestoreAndStart =>
        if !c.connected then ToReject
        else if c.service !in active then ToRestore
        else
          var a := active[c.service];
          if a.assignment != c.assignment && a.phase != Stopped then ToReject
          else if a.phase == Running then ToAnswerStarted
          else if a.phase == Starting then ToResume
          else ToRestore
      case StopAndSync =>
        if c.service !in active then ToHaltNothing
        else
          var a := active[c.service];
          if a.assignment != c.assignment then ToReject
          else if a.phase != Stopped then ToStop
          else if !a.stopReported then ToReport
          else ToSync
      case Unsupported => ToReject
  }

  function Current(s: State, c: Command): Option<Active>
  {
    if c.service in s.active then Some(s.active[c.service]) else None
  }

  function Halted'(c: Command): Active
  {
    Active(c.assignment, Stopped, false)
  }

  /** Where the next step takes the agent, or `None` where that step cannot come next. */
  function Advance(w: World, s: State, b: Busy, what: What): (r: Option<Place>)
  {
    var c := b.c;
    var move := Decide(w.node, s.results, s.active, c);
    match what
    case Begin => None
    case Replay =>
      if b.at == Deciding && move == ToReplay && c.id in s.results then Some(Answered(s.results[c.id])) else None
    case Decided =>
      if b.at != Deciding then None
      else if move == ToReject then Some(Finished(Result(FailedStatus, ""), Current(s, c)))
      else if move == ToAnswerStarted then Some(Finished(Result(StartedStatus, ""), Current(s, c)))
      else None
    case Restored => if b.at == Deciding && move == ToRestore then Some(WorkspaceRestored) else None
    case RestoreFailed => if b.at == Deciding && move == ToRestore then Some(b.at) else None
    case RestoreReplaced => if b.at == Deciding && move == ToRestore then Some(b.at) else None
    case RestoreLost => if b.at == Deciding && move == ToRestore then Some(b.at) else None
    case Recorded => if b.at == WorkspaceRestored then Some(Recorded') else None
    case Resumed => if b.at == Deciding && move == ToResume then Some(Recorded') else None
    case StartOk =>
      if b.at == Recorded' then Some(Finished(Result(StartedStatus, ""), Some(Active(c.assignment, Running, false))))
      else None
    case StartTerminal(code) => if b.at == Recorded' then Some(Finished(Result(FailedStatus, code), None)) else None
    case StartFailed => if b.at == Recorded' then Some(b.at) else None
    case NoAssignment => if b.at == Deciding && move == ToHaltNothing then Some(Halting(Halted'(c))) else None
    case StopOk => if b.at == Deciding && move == ToStop then Some(Halting(Halted'(c))) else None
    case StopFailed => if b.at == Deciding && move == ToStop then Some(b.at) else None
    case StillStopped =>
      if b.at == Deciding && move == ToReport && c.service in s.active then Some(Halting(s.active[c.service])) else None
    case SetStopped => if b.at.Halting? then Some(Reporting) else None
    case ReportAccepted => if b.at == Reporting then Some(Marking) else None
    case Marked =>
      if b.at == Marking && c.service in s.active && s.active[c.service].assignment == c.assignment &&
        s.active[c.service].phase == Stopped then Some(Deciding)
      else None
    case Drafted => if b.at == Deciding && move == ToSync && c.id !in s.disks.staged then Some(Uploading) else None
    case Reloaded => if b.at == Deciding && move == ToSync && c.id in s.disks.staged then Some(Uploading) else None
    case SyncOk => if b.at == Uploading then Some(Finished(Result(SyncedStatus, ""), None)) else None
    case SyncFailed => if b.at == Uploading || (b.at == Deciding && move == ToSync) then Some(b.at) else None
    case Committed(result) => if b.at.Finished? && b.at.result == result then Some(Answered(result)) else None
    case StartReported =>
      if b.at.Answered? && b.at.result.status == StartedStatus then Some(Acknowledging(b.at.result)) else None
    case SyncReported => if b.at.Answered? && b.at.result.status == SyncedStatus then Some(Releasing) else None
    case Released => if b.at == Releasing then Some(Acknowledging(Result(SyncedStatus, ""))) else None
    case Acked =>
      if b.at.Acknowledging? || (b.at.Answered? && b.at.result.status == FailedStatus) then Some(b.at) else None
    case Abandoned => Some(b.at)
  }

  /** The durable writes: `SetActive` before a start, after a stop and after its report, and `Commit`. */
  function ActiveAfter(s: State, b: Busy, what: What): map<string, Active>
  {
    var c := b.c;
    match what
    case Recorded => s.active[c.service := Active(c.assignment, Starting, false)]
    case SetStopped => if b.at.Halting? then s.active[c.service := b.at.record] else s.active
    case Marked =>
      if c.service in s.active then s.active[c.service := s.active[c.service].(stopReported := true)] else s.active
    case Committed(_) =>
      if !b.at.Finished? then s.active
      else if b.at.next.Some? then s.active[c.service := b.at.next.value]
      else s.active - {c.service}
    case _ => s.active
  }

  /**
   A restore puts other contents in place, also one that fails later, and a server may have written until it stopped or
   failed to start.
   */
  predicate Writes(what: What)
  {
    || what == Restored || what == RestoreReplaced || what == StartOk || what.StartTerminal? || what == StartFailed
    || what == StopOk
  }

  /** A restore that fails while it swaps directories can leave nothing in place, as a release does. */
  predicate Removes(what: What)
  {
    what == Released || what == RestoreLost
  }

  function ContentsOf(d: Disks, service: string): Option<nat>
  {
    if service in d.contents then Some(d.contents[service]) else None
  }

  function DisksAfter(d: Disks, c: Command, what: What): Disks
  {
    if Writes(what) then Disks(d.contents[c.service := d.next], d.staged, d.next + 1)
    else if Removes(what) then d.(contents := d.contents - {c.service})
    else if what == Drafted then d.(staged := d.staged[c.id := ContentsOf(d, c.service)])
    else if what == SyncOk then d.(staged := d.staged - {c.id})
    else d
  }

  /** Calls that end the handling of a command: acknowledged, or given up until it is delivered again. */
  predicate Ends(what: What)
  {
    || what == Acked || what == Abandoned || what == RestoreFailed || what == RestoreReplaced || what == RestoreLost
    || what == StartFailed || what == StopFailed || what == SyncFailed
  }

  /** A running container belongs to the recorded assignment. */
  predicate Owned(active: map<string, Active>, service: string, assignment: string)
  {
    service in active && active[service].assignment == assignment
  }

  function Next(w: World, s: State, e: Event): (r: Option<State>)
  {
    match e
    case Crash => Some(s.(busy := None))
    case Adopt(service, assignment) =>
      if s.busy.None? && Owned(s.active, service, assignment) && s.active[service].phase == Starting
      then Some(s.(active := s.active[service := s.active[service].(phase := Running)])) else None
    case Orphaned(service, assignment) =>
      if s.busy.None? && !Owned(s.active, service, assignment) then Some(s) else None
    case On(c, what) =>
      if what == Begin then
        if s.busy.None? && c == w.command(c.id) then Some(s.(busy := Some(Busy(c, Deciding, 1)))) else None
      else if s.busy.None? || s.busy.value.c != c then None
      else
        var b := s.busy.value;
        match Advance(w, s, b, what)
        case None => None
        case Some(place) =>
          Some(State(
            if what.Committed? then s.results[c.id := what.result] else s.results,
            ActiveAfter(s, b, what),
            DisksAfter(s.disks, c, what),
            if Ends(what) then None
            else Some(Busy(c, place, if what == Marked then b.executes + 1 else b.executes))))
  }

  ghost predicate Run(w: World, trace: seq<Event>, states: seq<State>)
  {
    && |states| == |trace| + 1
    && states[0] == EMPTY
    && forall i :: 0 <= i < |trace| ==> Next(w, states[i], trace[i]) == Some(states[i + 1])
  }

  /**
   The contents of a service change only by a restore, a start or a stop for that service, which put contents there that
   were never there before, or by a release or a restore that loses them, which leave nothing.
   */
  lemma ContentsChangeOnlyBy(w: World, s: State, e: Event, service: string)
    requires Next(w, s, e).Some?
    ensures var t := Next(w, s, e).value;
      var mine := e.On? && e.c.service == service;
      var puts := mine && (e.what in {Restored, RestoreReplaced, StartOk, StartFailed, StopOk} || e.what.StartTerminal?);
      var loses := mine && e.what in {Released, RestoreLost};
      && (puts ==> ContentsOf(t.disks, service) == Some(s.disks.next) && t.disks.next > s.disks.next)
      && (loses ==> ContentsOf(t.disks, service) == None)
      && (!puts && !loses ==> ContentsOf(t.disks, service) == ContentsOf(s.disks, service))
      && t.disks.next >= s.disks.next
  {
    hide Advance, ActiveAfter;
  }

  lemma RunStep(w: World, trace: seq<Event>, states: seq<State>, n: nat)
    requires Run(w, trace, states) && n < |trace|
    ensures Next(w, states[n], trace[n]) == Some(states[n + 1])
  {
  }

  lemma RunExtends(w: World, trace: seq<Event>, states: seq<State>, e: Event, t: State)
    requires Run(w, trace, states) && Next(w, states[|trace|], e) == Some(t)
    ensures Run(w, trace + [e], states + [t])
  {
    hide Next;
    var trace', states' := trace + [e], states + [t];
    forall i | 0 <= i < |trace'| ensures Next(w, states'[i], trace'[i]) == Some(states'[i + 1]) {
      if i < |trace| {
        assert states'[i] == states[i] && states'[i + 1] == states[i + 1] && trace'[i] == trace[i];
      }
    }
  }

  // ---------------------------------------------------------------- what the history says about a stop

  /** Since the service was last started: not stopped, stopped, or stopped and reported. */
  datatype Halt = Going | Halted(assignment: string) | Told(assignment: string)

  /** Any step of a start that comes after the restore. */
  predicate Starts(e: Event, service: string)
  {
    && e.On? && e.c.service == service
    && (e.what == Recorded || e.what == Resumed || e.what == StartOk || e.what.StartTerminal? || e.what == StartFailed)
  }

  function HaltAfter(before: Halt, e: Event, service: string): Halt
  {
    if !e.On? || e.c.service != service then before
    else
      if Starts(e, service) then Going else
      match e.what
      case StopOk => Halted(e.c.assignment)
      case NoAssignment => Halted(e.c.assignment)
      case ReportAccepted => if before == Halted(e.c.assignment) then Told(e.c.assignment) else before
      case _ => before
  }

  function HaltOf(trace: seq<Event>, service: string): Halt
  {
    if trace == [] then Going else HaltAfter(HaltOf(trace[..|trace| - 1], service), trace[|trace| - 1], service)
  }

  predicate HaltedFor(h: Halt, assignment: string)
  {
    h == Halted(assignment) || h == Told(assignment)
  }

  /** What is recorded about a service agrees with its history. */
  ghost predicate RecordSound(h: Halt, a: Active)
  {
    && (a.phase == Stopped ==> HaltedFor(h, a.assignment))
    && (a.stopReported ==> a.phase == Stopped && h == Told(a.assignment))
  }

  /** What the agent is doing for a service agrees with the service's history. */
  ghost predicate PlaceSound(h: Halt, active: map<string, Active>, b: Busy)
  {
    match b.at
    case Recorded' => b.c.service in active ==> active[b.c.service].phase != Stopped && !active[b.c.service].stopReported
    case Halting(next) =>
      next.assignment == b.c.assignment && next.phase == Stopped && !next.stopReported && HaltedFor(h, b.c.assignment)
    case Reporting => HaltedFor(h, b.c.assignment)
    case Marking => h == Told(b.c.assignment)
    case Uploading => h == Told(b.c.assignment)
    case Finished(_, next) => next.None? || RecordSound(h, next.value)
    case _ => true
  }

  ghost predicate StopSound(s: State, h: string -> Halt)
  {
    && (forall service :: service in s.active ==> RecordSound(h(service), s.active[service]))
    && (s.busy.Some? ==> PlaceSound(h(s.busy.value.c.service), s.active, s.busy.value))
  }

  lemma RecordSoundOn(w: World, s: State, b: Busy, what: What, h: Halt)
    requires Advance(w, s, b, what).Some? && PlaceSound(h, s.active, b)
    requires b.c.service in s.active ==> RecordSound(h, s.active[b.c.service])
    ensures var active := ActiveAfter(s, b, what);
      b.c.service in active ==> RecordSound(HaltAfter(h, On(b.c, what), b.c.service), active[b.c.service])
  {
  }

  lemma PlaceSoundOn(w: World, s: State, b: Busy, what: What, h: Halt, executes: nat)
    requires Advance(w, s, b, what).Some? && PlaceSound(h, s.active, b)
    requires b.c.service in s.active ==> RecordSound(h, s.active[b.c.service])
    ensures PlaceSound(HaltAfter(h, On(b.c, what), b.c.service), ActiveAfter(s, b, what),
                       Busy(b.c, Advance(w, s, b, what).value, executes))
  {
  }

  /** The records of other services are left alone. */
  lemma OthersKept(s: State, b: Busy, what: What, service: string)
    requires service != b.c.service
    ensures service in ActiveAfter(s, b, what) <==> service in s.active
    ensures service in s.active ==> ActiveAfter(s, b, what)[service] == s.active[service]
  {
  }

  lemma RecordSoundKept(w: World, s: State, e: Event, h: Halt, service: string)
    requires Next(w, s, e).Some?
    requires service in s.active ==> RecordSound(h, s.active[service])
    requires s.busy.Some? && s.busy.value.c.service == service ==> PlaceSound(h, s.active, s.busy.value)
    ensures service in Next(w, s, e).value.active ==>
      RecordSound(HaltAfter(h, e, service), Next(w, s, e).value.active[service])
  {
    hide Advance, ActiveAfter, PlaceSound, DisksAfter, Ends;
    if e.On? && e.what != Begin {
      if e.c.service == service {
        RecordSoundOn(w, s, s.busy.value, e.what, h);
      } else {
        OthersKept(s, s.busy.value, e.what, service);
      }
    }
  }

  lemma PlaceSoundKept(w: World, s: State, e: Event, h: Halt)
    requires Next(w, s, e).Some? && Next(w, s, e).value.busy.Some?
    requires var service := Next(w, s, e).value.busy.value.c.service;
      && (service in s.active ==> RecordSound(h, s.active[service]))
      && (s.busy.Some? && s.busy.value.c.service == service ==> PlaceSound(h, s.active, s.busy.value))
    ensures var t := Next(w, s, e).value; PlaceSound(HaltAfter(h, e, t.busy.value.c.service), t.active, t.busy.value)
  {
    hide Advance, ActiveAfter, RecordSound, HaltAfter, DisksAfter, Ends;
    if e.On? && e.what != Begin {
      PlaceSoundOn(w, s, s.busy.value, e.what, h, Next(w, s, e).value.busy.value.executes);
    }
  }

  lemma {:induction false} RunStopSound(w: World, trace: seq<Event>, states: seq<State>, n: nat)
    requires Run(w, trace, states) && n <= |trace|
    ensures StopSound(states[n], service => HaltOf(trace[..n], service))
  {
    hide Next, RecordSound, PlaceSound, HaltAfter;
    if n > 0 {
      var e, s, t := trace[n - 1], states[n - 1], states[n];
      RunStopSound(w, trace, states, n - 1);
      RunStep(w, trace, states, n - 1);
      assert trace[..n][..n - 1] == trace[..n - 1];
      forall service: string
        ensures HaltOf(trace[..n], service) == HaltAfter(HaltOf(trace[..n - 1], service), e, service)
      {
      }
      forall service | service in t.active ensures RecordSound(HaltOf(trace[..n], service), t.active[service]) {
        RecordSoundKept(w, s, e, HaltOf(trace[..n - 1], service), service);
      }
      if t.busy.Some? {
        PlaceSoundKept(w, s, e, HaltOf(trace[..n - 1], t.busy.value.c.service));
      }
    }
  }

  // ---------------------------------------------------------------- stop, report, sync

  predicate Halts(e: Event, service: string)
  {
    e.On? && e.c.service == service && (e.what == StopOk || e.what == NoAssignment)
  }

  predicate Stops(e: Event, service: string, assignment: string)
  {
    Halts(e, service) && e.c.assignment == assignment
  }

  predicate Reports(e: Event, service: string, assignment: string)
  {
    e.On? && e.c.service == service && e.c.assignment == assignment && e.what == ReportAccepted
  }

  /** The position of the last stop of a service before `n`, with no step of a start since. */
  ghost predicate StoppedAt(trace: seq<Event>, n: nat, service: string, assignment: string, k: nat)
    requires n <= |trace|
  {
    && k < n && Stops(trace[k], service, assignment)
    && forall i :: k < i < n ==> !Starts(trace[i], service) && !Halts(trace[i], service)
  }

  ghost predicate ToldAt(trace: seq<Event>, n: nat, service: string, assignment: string, k: nat, j: nat)
    requires n <= |trace|
  {
    StoppedAt(trace, n, service, assignment, k) && k < j < n && Reports(trace[j], service, assignment)
  }

  lemma {:induction false} HaltMeans(trace: seq<Event>, n: nat, service: string, assignment: string)
    returns (k: nat, j: nat)
    requires n <= |trace| && HaltedFor(HaltOf(trace[..n], service), assignment)
    ensures StoppedAt(trace, n, service, assignment, k)
    ensures HaltOf(trace[..n], service) == Told(assignment) ==> ToldAt(trace, n, service, assignment, k, j)
    decreases n
  {
    var e := trace[n - 1];
    assert trace[..n][..n - 1] == trace[..n - 1];
    if Stops(e, service, assignment) {
      k, j := n - 1, 0;
    } else {
      k, j := HaltMeans(trace, n - 1, service, assignment);
      if HaltOf(trace[..n - 1], service) == Halted(assignment) && Reports(e, service, assignment) {
        j := n - 1;
      }
    }
  }

  predicate CallsSync(e: Event)
  {
    e.On? && (e.what == Drafted || e.what == Reloaded || e.what == SyncOk || e.what == SyncFailed)
  }

  /**
   Every step of a call of the workspace sync, whether it succeeds or not, comes after an accepted stopped report for its
   assignment, which came after a successful stop or a stop that found nothing recorded, and no step of a start
   of the service lies between that stop and the sync.
   */
  lemma SyncAfterReport(w: World, trace: seq<Event>, states: seq<State>, n: nat) returns (k: nat, j: nat)
    requires Run(w, trace, states) && n < |trace| && CallsSync(trace[n])
    ensures ToldAt(trace, n, trace[n].c.service, trace[n].c.assignment, k, j)
  {
    hide ToldAt, HaltOf;
    var c := trace[n].c;
    RunStopSound(w, trace, states, n);
    RunStep(w, trace, states, n);
    k, j := HaltMeans(trace, n, c.service, c.assignment);
  }

  /** Every accepted stopped report comes after a stop of its assignment, with no step of a start in between. */
  lemma ReportAfterStop(w: World, trace: seq<Event>, states: seq<State>, n: nat) returns (k: nat)
    requires Run(w, trace, states) && n < |trace| && trace[n].On? && trace[n].what == ReportAccepted
    ensures StoppedAt(trace, n, trace[n].c.service, trace[n].c.assignment, k)
  {
    hide ToldAt, StoppedAt, HaltOf;
    var c := trace[n].c;
    RunStopSound(w, trace, states, n);
    RunStep(w, trace, states, n);
    var j;
    k, j := HaltMeans(trace, n, c.service, c.assignment);
  }

  // ---------------------------------------------------------------- whose contents a sync uploads

  /** What a service has on disk; nothing at all is what an empty workspace is synced from. */
  function Contents(s: State, service: string): Option<nat>
  {
    ContentsOf(s.disks, service)
  }

  predicate Fills(e: Event, service: string)
  {
    e.On? && e.c.service == service && Writes(e.what)
  }

  predicate Empties(e: Event, service: string)
  {
    e.On? && e.c.service == service && Removes(e.what)
  }

  ghost predicate Unchanged(trace: seq<Event>, p: nat, q: nat, service: string)
    requires q <= |trace|
  {
    forall m :: p <= m < q ==> !Fills(trace[m], service) && !Empties(trace[m], service)
  }

  /** Whatever was put in place in the first `n` steps has been removed since. */
  ghost predicate Emptied(trace: seq<Event>, n: nat, service: string)
    requires n <= |trace|
  {
    forall m :: 0 <= m < n && Fills(trace[m], service) ==> exists r :: m < r < n && Empties(trace[r], service)
  }

  lemma ContentsStep(w: World, s: State, e: Event, service: string)
    requires Next(w, s, e).Some?
    ensures Contents(Next(w, s, e).value, service) ==
      if Fills(e, service) then Some(s.disks.next) else if Empties(e, service) then None else Contents(s, service)
  {
    hide Advance, ActiveAfter;
  }

  lemma {:induction false} EmptiedMeans(w: World, trace: seq<Event>, states: seq<State>, n: nat, service: string)
    requires Run(w, trace, states) && n <= |trace|
    ensures Contents(states[n], service).None? <==> Emptied(trace, n, service)
  {
    hide Next, Contents, Fills, Empties;
    if n == 0 {
      assert Contents(EMPTY, service).None? by { NothingAtFirst(service); }
    } else {
      EmptiedMeans(w, trace, states, n - 1, service);
      RunStep(w, trace, states, n - 1);
      ContentsStep(w, states[n - 1], trace[n - 1], service);
      EmptiedNext(trace, n, service);
    }
  }

  lemma NothingAtFirst(service: string)
    ensures Contents(EMPTY, service).None?
  {
  }

  lemma EmptiedNext(trace: seq<Event>, n: nat, service: string)
    requires 0 < n <= |trace|
    ensures Emptied(trace, n, service) <==>
      if Fills(trace[n - 1], service) then false
      else Empties(trace[n - 1], service) || Emptied(trace, n - 1, service)
  {
    hide Fills, Empties;
    var last := trace[n - 1];
    if Fills(last, service) {
      assert !Emptied(trace, n, service);
    } else if !Empties(last, service) && Emptied(trace, n, service) {
      forall m | 0 <= m < n - 1 && Fills(trace[m], service) ensures exists r :: m < r < n - 1 && Empties(trace[r], service) {
        var r :| m < r < n && Empties(trace[r], service);
      }
    }
  }

  /** Contents on disk are older than the next ones to come. */
  ghost predicate Numbered(s: State)
  {
    forall service :: service in s.disks.contents ==> s.disks.contents[service] < s.disks.next
  }

  lemma NumberedStep(w: World, s: State, e: Event)
    requires Next(w, s, e).Some? && Numbered(s)
    ensures Numbered(Next(w, s, e).value) && s.disks.next <= Next(w, s, e).value.disks.next
  {
    hide Advance, ActiveAfter;
  }

  lemma {:induction false} RunNumbered(w: World, trace: seq<Event>, states: seq<State>, k: nat, n: nat)
    requires Run(w, trace, states) && k <= n <= |trace|
    ensures Numbered(states[n]) && states[k].disks.next <= states[n].disks.next
    decreases n
  {
    hide Next;
    if n > 0 {
      RunNumbered(w, trace, states, if k < n then k else n - 1, n - 1);
      RunStep(w, trace, states, n - 1);
      NumberedStep(w, states[n - 1], trace[n - 1]);
    }
  }

  /** The contents at `q` are those at `p`, or newer, or none. */
  lemma {:induction false} ContentsSince(w: World, trace: seq<Event>, states: seq<State>, p: nat, q: nat, service: string)
    requires Run(w, trace, states) && p <= q <= |trace|
    ensures |states| == |trace| + 1
    ensures if Unchanged(trace, p, q, service) then Contents(states[q], service) == Contents(states[p], service)
            else Contents(states[q], service).None? || Contents(states[q], service).value >= states[p].disks.next
    decreases q
  {
    hide Next, Contents, Fills, Empties;
    if p < q {
      ContentsSince(w, trace, states, p, q - 1, service);
      RunStep(w, trace, states, q - 1);
      ContentsStep(w, states[q - 1], trace[q - 1], service);
      RunNumbered(w, trace, states, p, q - 1);
    }
  }

  lemma OlderThanNext(w: World, trace: seq<Event>, states: seq<State>, p: nat, service: string)
    requires Run(w, trace, states) && p <= |trace|
    ensures Contents(states[p], service).Some? ==> Contents(states[p], service).value < states[p].disks.next
  {
    hide Next;
    RunNumbered(w, trace, states, p, p);
  }

  /** A service has the same contents at two moments exactly if nothing changed them in between, or it has none at both. */
  lemma SameContents(w: World, trace: seq<Event>, states: seq<State>, p: nat, q: nat, service: string)
    requires Run(w, trace, states) && p <= q <= |trace|
    ensures |states| == |trace| + 1
    ensures Contents(states[p], service) == Contents(states[q], service) <==>
      Unchanged(trace, p, q, service) || (Emptied(trace, p, service) && Emptied(trace, q, service))
  {
    hide Next, Contents, Unchanged, Emptied;
    ContentsSince(w, trace, states, p, q, service);
    OlderThanNext(w, trace, states, p, service);
    EmptiedMeans(w, trace, states, p, service);
    EmptiedMeans(w, trace, states, q, service);
  }

  // ---------------------------------------------------------------- what changes contents between a stop and a draft

  /** A restore that is given up, by a crash or an error, before its assignment is recorded. */
  predicate CutShort(trace: seq<Event>, m: nat, service: string)
  {
    && m + 1 < |trace| && trace[m].On? && trace[m].c.service == service && trace[m].what == Restored
    && (trace[m + 1] == Crash || trace[m + 1] == On(trace[m].c, Abandoned))
  }

  /** A restore that failed after it had changed the directory. */
  predicate FailedLate(e: Event, service: string)
  {
    e.On? && e.c.service == service && (e.what == RestoreReplaced || e.what == RestoreLost)
  }

  predicate Releases(e: Event, service: string)
  {
    e.On? && e.c.service == service && e.what == Released
  }

  ghost predicate Undisturbed(trace: seq<Event>, k: nat, n: nat, service: string)
    requires n <= |trace|
  {
    forall m :: k < m < n ==>
      !CutShort(trace, m, service) && !FailedLate(trace[m], service) && !Releases(trace[m], service)
  }

  /** What comes after a restore: it is recorded, or it was cut short. */
  lemma AfterRestore(w: World, trace: seq<Event>, states: seq<State>, m: nat)
    requires Run(w, trace, states) && m + 1 < |trace| && trace[m].On? && trace[m].what == Restored
    ensures CutShort(trace, m, trace[m].c.service) || trace[m + 1] == On(trace[m].c, Recorded)
  {
    hide Decide, ActiveAfter, DisksAfter;
    RunStep(w, trace, states, m);
    RunStep(w, trace, states, m + 1);
  }

  lemma OneDisturbance(w: World, trace: seq<Event>, states: seq<State>, m: nat, service: string)
    requires Run(w, trace, states) && m + 1 < |trace| && !Starts(trace[m], service) && !Halts(trace[m], service)
    requires !Starts(trace[m + 1], service) || !(trace[m].On? && trace[m].c.service == service)
    ensures Fills(trace[m], service) || Empties(trace[m], service) <==>
      CutShort(trace, m, service) || FailedLate(trace[m], service) || Releases(trace[m], service)
  {
    hide Run;
    if trace[m].On? && trace[m].c.service == service && trace[m].what == Restored {
      AfterRestore(w, trace, states, m);
    }
  }

  /** Where no step of a start and no stop lies, contents change only by restores given up and by releases. */
  lemma ChangesAreDisturbances(w: World, trace: seq<Event>, states: seq<State>, k: nat, n: nat, service: string)
    requires Run(w, trace, states) && k < n < |trace| && CallsSync(trace[n])
    requires forall i :: k < i < n ==> !Starts(trace[i], service) && !Halts(trace[i], service)
    ensures Unchanged(trace, k + 1, n, service) <==> Undisturbed(trace, k, n, service)
  {
    hide Run, Fills, Empties, CutShort, FailedLate, Releases, Halts;
    assert !Starts(trace[n], service);
    forall m | k < m < n
      ensures Fills(trace[m], service) || Empties(trace[m], service) <==>
        CutShort(trace, m, service) || FailedLate(trace[m], service) || Releases(trace[m], service)
    {
      OneDisturbance(w, trace, states, m, service);
    }
  }

  // ---------------------------------------------------------------- the staged draft

  /** The draft that is staged for a command after `n` steps was made at `d`. */
  ghost predicate DraftedAt(trace: seq<Event>, n: nat, id: string, d: nat)
    requires n <= |trace|
  {
    && d < n && trace[d].On? && trace[d].c.id == id && trace[d].what == Drafted
    && forall i :: d < i < n && trace[i].On? && trace[i].c.id == id ==> trace[i].what != Drafted && trace[i].what != SyncOk
  }

  lemma StagedStep(w: World, s: State, e: Event, id: string)
    requires Next(w, s, e).Some?
    ensures var before, after := s.disks.staged, Next(w, s, e).value.disks.staged;
      if e.On? && e.c.id == id && e.what == Drafted then id in after && after[id] == Contents(s, e.c.service)
      else if e.On? && e.c.id == id && e.what == SyncOk then id !in after
      else (id in after <==> id in before) && (id in before ==> after[id] == before[id])
  {
    hide Advance, ActiveAfter;
  }

  lemma {:induction false} StagedMeans(w: World, trace: seq<Event>, states: seq<State>, n: nat, id: string) returns (d: nat)
    requires Run(w, trace, states) && n <= |trace| && id in states[n].disks.staged
    ensures |states| == |trace| + 1 && DraftedAt(trace, n, id, d)
    ensures states[n].disks.staged[id] == Contents(states[d], trace[d].c.service)
    decreases n
  {
    hide Next, Contents;
    RunStep(w, trace, states, n - 1);
    StagedStep(w, states[n - 1], trace[n - 1], id);
    var e := trace[n - 1];
    if e.On? && e.c.id == id && e.what == Drafted {
      d := n - 1;
    } else {
      d := StagedMeans(w, trace, states, n - 1, id);
    }
  }

  ghost predicate DraftedIfUploading(s: State)
  {
    s.busy.Some? && s.busy.value.at == Uploading ==> s.busy.value.c.id in s.disks.staged
  }

  lemma {:induction false} RunDrafted(w: World, trace: seq<Event>, states: seq<State>, n: nat)
    requires Run(w, trace, states) && n <= |trace|
    ensures DraftedIfUploading(states[n])
  {
    hide Decide, ActiveAfter;
    if n > 0 {
      RunDrafted(w, trace, states, n - 1);
      RunStep(w, trace, states, n - 1);
    }
  }

  /** Each command id stands for one command. */
  lemma SameCommand(w: World, trace: seq<Event>, states: seq<State>, d: nat, n: nat)
    requires Run(w, trace, states) && d < |trace| && trace[d].On? && n <= |trace| && states[n].busy.Some?
    requires trace[d].c.id == states[n].busy.value.c.id
    ensures trace[d].c == states[n].busy.value.c
  {
    hide Advance, ActiveAfter, DisksAfter;
    RunStep(w, trace, states, d);
    RunOwnCommands(w, trace, states, d);
    RunOwnCommands(w, trace, states, n);
  }

  /** A draft is made from what the stop before it left exactly if nothing disturbed that, or there is nothing. */
  lemma DraftsWhatWasStopped(w: World, trace: seq<Event>, states: seq<State>, d: nat, k: nat)
    requires Run(w, trace, states) && d < |trace| && trace[d].On? && trace[d].what == Drafted
    requires StoppedAt(trace, d, trace[d].c.service, trace[d].c.assignment, k)
    ensures |states| == |trace| + 1
    ensures var service := trace[d].c.service;
      Contents(states[d], service) == Contents(states[k + 1], service) <==>
        || Undisturbed(trace, k, d, service)
        || (Emptied(trace, k + 1, service) && Emptied(trace, d, service))
  {
    hide Run, Contents, Unchanged, Emptied, Undisturbed;
    var service := trace[d].c.service;
    SameContents(w, trace, states, k + 1, d, service);
    ChangesAreDisturbances(w, trace, states, k, d, service);
  }

  /**
   Whenever a call of the sync uploads, with `k` the stop before it and `d` the moment its draft was made: it uploads
   what that stop left on disk if and only if

   - where the draft was made since that stop: no restore of the service was given up after it had changed the
     directory and no release of it took place between stop and draft, or there was nothing at both;
   - where the draft is an earlier one: nothing changed the contents between the draft and the end of the stop, or
     there was nothing at both.
   */
  lemma SyncsWhatWasStopped(w: World, trace: seq<Event>, states: seq<State>, n: nat) returns (k: nat, d: nat)
    requires Run(w, trace, states) && n <= |trace| && states[n].busy.Some? && states[n].busy.value.at == Uploading
    ensures |states| == |trace| + 1
    ensures var c := states[n].busy.value.c;
      && StoppedAt(trace, n, c.service, c.assignment, k) && DraftedAt(trace, n, c.id, d) && d != k
      && c.id in states[n].disks.staged
      && (states[n].disks.staged[c.id] == Contents(states[k + 1], c.service) <==>
            || (if k < d then Undisturbed(trace, k, d, c.service) else Unchanged(trace, d, k + 1, c.service))
            || (Emptied(trace, k + 1, c.service) && Emptied(trace, d, c.service)))
  {
    hide Next, Contents, Unchanged, Emptied, Undisturbed, HaltOf;
    var c := states[n].busy.value.c;
    k := UploadAfterStop(w, trace, states, n);
    RunDrafted(w, trace, states, n);
    d := StagedMeans(w, trace, states, n, c.id);
    SameCommand(w, trace, states, d, n);
    if k < d {
      DraftsWhatWasStopped(w, trace, states, d, k);
    } else {
      SameContents(w, trace, states, d, k + 1, c.service);
    }
  }

  lemma UploadAfterStop(w: World, trace: seq<Event>, states: seq<State>, n: nat) returns (k: nat)
    requires Run(w, trace, states) && n <= |trace| && states[n].busy.Some? && states[n].busy.value.at == Uploading
    ensures StoppedAt(trace, n, states[n].busy.value.c.service, states[n].busy.value.c.assignment, k)
  {
    hide HaltOf, Next;
    var c := states[n].busy.value.c;
    RunStopSound(w, trace, states, n);
    var j;
    k, j := HaltMeans(trace, n, c.service, c.assignment);
  }

  // ---------------------------------------------------------------- commit, report, release, acknowledge

  predicate Commits(e: Event, c: Command, status: Status)
  {
    e.On? && e.c == c && e.what.Committed? && e.what.result.status == status
  }

  /** How far the end of a stop command has come, in the order it must take. */
  datatype Ending = NotSynced | SyncCommitted | SyncTold | WorkspaceReleased

  function EndingAfter(before: Ending, e: Event, c: Command): Ending
  {
    if Commits(e, c, SyncedStatus) then (if before == NotSynced then SyncCommitted else before)
    else if e == On(c, SyncReported) then (if before == SyncCommitted then SyncTold else before)
    else if e == On(c, Released) then (if before == SyncTold then WorkspaceReleased else before)
    else before
  }

  function EndingOf(trace: seq<Event>, c: Command): Ending
  {
    if trace == [] then NotSynced else EndingAfter(EndingOf(trace[..|trace| - 1], c), trace[|trace| - 1], c)
  }

  /** Stored and remembered results agree with how far the command has come. */
  ghost predicate EndingSound(s: State, c: Command, ending: Ending)
  {
    && (c.id in s.results && s.results[c.id].status == SyncedStatus ==> ending != NotSynced)
    && (s.busy.Some? && s.busy.value.c == c ==>
          match s.busy.value.at
          case Answered(r) => c.id in s.results && s.results[c.id] == r
          case Releasing => ending == SyncTold || ending == WorkspaceReleased
          case Acknowledging(r) => r.status == SyncedStatus ==> ending == WorkspaceReleased
          case _ => true)
  }

  ghost predicate OwnCommands(w: World, s: State)
  {
    s.busy.Some? ==> s.busy.value.c == w.command(s.busy.value.c.id)
  }

  lemma {:induction false} RunOwnCommands(w: World, trace: seq<Event>, states: seq<State>, n: nat)
    requires Run(w, trace, states) && n <= |trace|
    ensures OwnCommands(w, states[n])
  {
    hide Advance, ActiveAfter;
    if n > 0 {
      RunOwnCommands(w, trace, states, n - 1);
      RunStep(w, trace, states, n - 1);
    }
  }

  lemma EndingStep(w: World, s: State, e: Event, c: Command, ending: Ending)
    requires Next(w, s, e).Some? && OwnCommands(w, s) && c == w.command(c.id)
    requires EndingSound(s, c, ending)
    ensures EndingSound(Next(w, s, e).value, c, EndingAfter(ending, e, c))
  {
    hide Decide, ActiveAfter;
  }

  lemma {:induction false} RunEnding(w: World, trace: seq<Event>, states: seq<State>, n: nat, c: Command)
    requires Run(w, trace, states) && n <= |trace| && c == w.command(c.id)
    ensures EndingSound(states[n], c, EndingOf(trace[..n], c))
  {
    hide Next, EndingAfter;
    if n > 0 {
      RunEnding(w, trace, states, n - 1, c);
      RunStep(w, trace, states, n - 1);
      RunOwnCommands(w, trace, states, n - 1);
      EndingStep(w, states[n - 1], trace[n - 1], c, EndingOf(trace[..n - 1], c));
      assert trace[..n][..n - 1] == trace[..n - 1];
    }
  }

  ghost predicate CommittedAt(trace: seq<Event>, n: nat, c: Command, i: nat)
    requires n <= |trace|
  {
    i < n && Commits(trace[i], c, SyncedStatus)
  }

  ghost predicate SyncToldAt(trace: seq<Event>, n: nat, c: Command, i: nat, j: nat)
    requires n <= |trace|
  {
    CommittedAt(trace, n, c, i) && i < j < n && trace[j] == On(c, SyncReported)
  }

  ghost predicate ReleasedAt(trace: seq<Event>, n: nat, c: Command, i: nat, j: nat, k: nat)
    requires n <= |trace|
  {
    SyncToldAt(trace, n, c, i, j) && j < k < n && trace[k] == On(c, Released)
  }

  lemma {:induction false} EndingMeans(trace: seq<Event>, n: nat, c: Command) returns (i: nat, j: nat, k: nat)
    requires n <= |trace|
    ensures EndingOf(trace[..n], c) != NotSynced ==> CommittedAt(trace, n, c, i)
    ensures EndingOf(trace[..n], c) == SyncTold ==> SyncToldAt(trace, n, c, i, j)
    ensures EndingOf(trace[..n], c) == WorkspaceReleased ==> ReleasedAt(trace, n, c, i, j, k)
    decreases n
  {
    i, j, k := 0, 0, 0;
    if n > 0 {
      assert trace[..n][..n - 1] == trace[..n - 1];
      i, j, k := EndingMeans(trace, n - 1, c);
      var before, after := EndingOf(trace[..n - 1], c), EndingOf(trace[..n], c);
      if before == NotSynced && after == SyncCommitted {
        i := n - 1;
      } else if before == SyncCommitted && after == SyncTold {
        j := n - 1;
      } else if before == SyncTold && after == WorkspaceReleased {
        k := n - 1;
      }
    }
  }

  /** The local workspace is released only after a committed sync whose report was accepted. */
  lemma ReleaseAfterReport(w: World, trace: seq<Event>, states: seq<State>, n: nat) returns (i: nat, j: nat)
    requires Run(w, trace, states) && n < |trace| && trace[n].On? && trace[n].what == Released
    ensures SyncToldAt(trace, n, trace[n].c, i, j)
  {
    hide EndingOf;
    var c := trace[n].c;
    RunStep(w, trace, states, n);
    RunOwnCommands(w, trace, states, n);
    RunEnding(w, trace, states, n, c);
    var k;
    i, j, k := EndingMeans(trace, n, c);
  }

  /** A synced stop is acknowledged only after its workspace was released. */
  lemma AckAfterRelease(w: World, trace: seq<Event>, states: seq<State>, n: nat) returns (i: nat, j: nat, k: nat)
    requires Run(w, trace, states) && n < |trace| && trace[n].On? && trace[n].what == Acked
    requires trace[n].c.id in states[n].results && states[n].results[trace[n].c.id].status == SyncedStatus
    ensures ReleasedAt(trace, n, trace[n].c, i, j, k)
  {
    hide EndingOf, ReleasedAt;
    var c := trace[n].c;
    RunStep(w, trace, states, n);
    RunOwnCommands(w, trace, states, n);
    RunEnding(w, trace, states, n, c);
    RunAnswers(w, trace, states, n);
    i, j, k := EndingMeans(trace, n, c);
  }

  /** What is about to be acknowledged is the stored result. */
  ghost predicate AnswersStored(s: State)
  {
    s.busy.Some? ==>
      var b := s.busy.value;
      match b.at
      case Answered(r) => b.c.id in s.results && s.results[b.c.id] == r
      case Releasing => b.c.id in s.results && s.results[b.c.id].status == SyncedStatus
      case Acknowledging(r) => b.c.id in s.results && s.results[b.c.id].status == r.status
      case _ => true
  }

  lemma {:induction false} RunAnswers(w: World, trace: seq<Event>, states: seq<State>, n: nat)
    requires Run(w, trace, states) && n <= |trace|
    ensures AnswersStored(states[n])
  {
    hide Decide, ActiveAfter;
    if n > 0 {
      RunAnswers(w, trace, states, n - 1);
      RunStep(w, trace, states, n - 1);
    }
  }

  // ---------------------------------------------------------------- what a release removes

  /** A write that records an assignment for the service, as starting or as stopped. */
  predicate Takes(e: Event, service: string)
  {
    e.On? && e.c.service == service && (e.what == Recorded || e.what == SetStopped)
  }

  /** A commit that follows a sync or a start that failed for good; it takes the assignment off the record. */
  predicate Clears(trace: seq<Event>, j: nat, service: string)
  {
    && 0 < j < |trace| && trace[j].On? && trace[j].c.service == service && trace[j].what.Committed?
    && trace[j - 1].On? && trace[j - 1].c == trace[j].c && (trace[j - 1].what == SyncOk || trace[j - 1].what.StartTerminal?)
  }

  /** Between `k` and `n` an assignment is recorded for the service and not taken off again. */
  ghost predicate TakenSince(trace: seq<Event>, k: nat, n: nat, service: string, m: nat)
    requires n <= |trace|
  {
    k < m < n && Takes(trace[m], service) && forall j :: m < j < n ==> !Clears(trace, j, service)
  }

  /** What a command is about to commit agrees with the step before it and with what is recorded. */
  ghost predicate Prepared(s: State, last: Event)
  {
    s.busy.Some? ==>
      var b := s.busy.value;
      && (b.at == Recorded' ==> b.c.service in s.active)
      && (b.at.Finished? ==>
            && last.On? && last.c == b.c
            && (if last.what == SyncOk || last.what.StartTerminal? then b.at.next.None?
                else b.at.next.Some? <==> b.c.service in s.active))
  }

  lemma PreparedStep(w: World, s: State, before: Event, e: Event)
    requires Next(w, s, e).Some? && Prepared(s, before)
    ensures Prepared(Next(w, s, e).value, e)
  {
    hide Decide, DisksAfter;
    if s.busy.Some? {
      ResumesRecorded(w.node, s.results, s.active, s.busy.value.c);
    }
  }

  lemma ResumesRecorded(node: string, results: map<string, Result>, active: map<string, Active>, c: Command)
    ensures Decide(node, results, active, c) == ToResume ==> c.service in active
  {
  }

  lemma {:induction false} RunPrepared(w: World, trace: seq<Event>, states: seq<State>, n: nat)
    requires Run(w, trace, states) && 0 < n <= |trace|
    ensures Prepared(states[n], trace[n - 1])
  {
    hide Next, Prepared;
    RunStep(w, trace, states, n - 1);
    if n > 1 {
      RunPrepared(w, trace, states, n - 1);
      PreparedStep(w, states[n - 1], trace[n - 2], trace[n - 1]);
    } else {
      NothingPrepared(trace[0]);
      PreparedStep(w, states[0], trace[0], trace[0]);
    }
  }

  lemma NothingPrepared(e: Event)
    ensures Prepared(EMPTY, e)
  {
  }

  lemma TakenStep(w: World, s: State, last: Event, e: Event, service: string)
    requires Next(w, s, e).Some? && Prepared(s, last)
    ensures service in Next(w, s, e).value.active <==>
      Takes(e, service) || (service in s.active && !Clears([last, e], 1, service))
  {
    hide Decide, DisksAfter;
  }

  /** After a write that left nothing recorded, what is recorded came by later events that can be read off the trace. */
  lemma {:induction false} RecordedSince(w: World, trace: seq<Event>, states: seq<State>, k: nat, n: nat, service: string)
    requires Run(w, trace, states) && k < n <= |trace| && service !in states[k + 1].active
    ensures service in states[n].active <==> exists m: nat :: TakenSince(trace, k, n, service, m)
    decreases n
  {
    hide Next, Takes;
    if k + 1 < n {
      RecordedSince(w, trace, states, k, n - 1, service);
      RunStep(w, trace, states, n - 1);
      RunPrepared(w, trace, states, n - 1);
      TakenStep(w, states[n - 1], trace[n - 2], trace[n - 1], service);
      assert Clears(trace, n - 1, service) <==> Clears([trace[n - 2], trace[n - 1]], 1, service);
      if Takes(trace[n - 1], service) {
        assert TakenSince(trace, k, n, service, n - 1);
      } else if service in states[n].active {
        var m: nat :| TakenSince(trace, k, n - 1, service, m);
        assert TakenSince(trace, k, n, service, m);
      } else if m: nat :| TakenSince(trace, k, n, service, m) {
        assert TakenSince(trace, k, n - 1, service, m);
      }
    }
  }

  /**
   A release takes the workspace away from a recorded assignment if and only if, since the sync of its own command
   was committed, another command recorded one for the service and no sync and no start that failed for good was
   committed after that.
   */
  lemma ReleaseHitsAssignment(w: World, trace: seq<Event>, states: seq<State>, k: nat, n: nat)
    requires Run(w, trace, states) && k < n < |trace| && trace[n].On? && trace[n].what == Released
    requires Commits(trace[k], trace[n].c, SyncedStatus)
    ensures |states| == |trace| + 1
    ensures var c := trace[n].c;
      c.service in states[n].active <==> exists m: nat :: TakenSince(trace, k, n, c.service, m) && trace[m].c.id != c.id
  {
    hide Next, Takes, Clears;
    var c := trace[n].c;
    RunStep(w, trace, states, k);
    RunSyncDeletes(w, trace, states, k);
    SyncCommitDeletes(w, states[k], trace[k], c);
    SyncIsFinal(w, states[k], trace[k], c);
    RecordedSince(w, trace, states, k, n, c.service);
    forall m: nat | TakenSince(trace, k, n, c.service, m) ensures trace[m].On? && trace[m].c.id != c.id {
      TakenByOther(w, trace, states, k, m, c);
    }
  }

  lemma SyncIsFinal(w: World, s: State, e: Event, c: Command)
    requires Next(w, s, e).Some? && Commits(e, c, SyncedStatus)
    ensures var t := Next(w, s, e).value; c.id in t.results && Final(t.results[c.id])
  {
    hide Decide, DisksAfter, ActiveAfter;
  }

  lemma TakenByOther(w: World, trace: seq<Event>, states: seq<State>, k: nat, m: nat, c: Command)
    requires Run(w, trace, states) && k < m < |trace| && Takes(trace[m], c.service)
    requires c.id in states[k + 1].results && Final(states[k + 1].results[c.id])
    ensures trace[m].On? && trace[m].c.id != c.id
  {
    hide Decide, ActiveAfter, DisksAfter;
    FinalStays(w, trace, states, k + 1, m, c.id);
    RunStep(w, trace, states, m);
    RunWorkUnfinished(w, trace, states, m);
  }

  lemma SyncCommitDeletes(w: World, s: State, e: Event, c: Command)
    requires Next(w, s, e).Some? && SyncDeletes(s) && Commits(e, c, SyncedStatus)
    ensures c.service !in Next(w, s, e).value.active
  {
    hide Decide;
  }

  /** A finished sync commits no assignment. */
  ghost predicate SyncDeletes(s: State)
  {
    s.busy.Some? && s.busy.value.at.Finished? && s.busy.value.at.result.status == SyncedStatus ==>
      s.busy.value.at.next.None?
  }

  lemma {:induction false} RunSyncDeletes(w: World, trace: seq<Event>, states: seq<State>, n: nat)
    requires Run(w, trace, states) && n <= |trace|
    ensures SyncDeletes(states[n])
  {
    hide Decide, ActiveAfter;
    if n > 0 {
      RunSyncDeletes(w, trace, states, n - 1);
      RunStep(w, trace, states, n - 1);
    }
  }

  // ---------------------------------------------------------------- executed once

  /** While work is being done for a command, it has no final result yet. */
  ghost predicate WorkUnfinished(s: State)
  {
    s.busy.Some? &&
    (s.busy.value.at in {WorkspaceRestored, Recorded', Reporting, Marking, Uploading} || s.busy.value.at.Finished? || s.busy.value.at.Halting?) ==>
      !(s.busy.value.c.id in s.results && Final(s.results[s.busy.value.c.id]))
  }

  lemma {:induction false} RunWorkUnfinished(w: World, trace: seq<Event>, states: seq<State>, n: nat)
    requires Run(w, trace, states) && n <= |trace|
    ensures WorkUnfinished(states[n])
  {
    hide ActiveAfter;
    if n > 0 {
      RunWorkUnfinished(w, trace, states, n - 1);
      RunStep(w, trace, states, n - 1);
    }
  }

  /** A result that is no failure, or a failure with a code, never changes, across restarts. */
  lemma {:induction false} FinalStays(w: World, trace: seq<Event>, states: seq<State>, n: nat, m: nat, id: string)
    requires Run(w, trace, states) && n <= m <= |trace|
    requires id in states[n].results && (states[n].results[id].status != FailedStatus || states[n].results[id].code != "")
    ensures id in states[m].results && states[m].results[id] == states[n].results[id]
    decreases m
  {
    hide Next, WorkUnfinished;
    if n < m {
      FinalStays(w, trace, states, n, m - 1, id);
      RunStep(w, trace, states, m - 1);
      RunWorkUnfinished(w, trace, states, m - 1);
      FinalStep(w, states[m - 1], trace[m - 1], id);
    }
  }

  lemma FinalStep(w: World, s: State, e: Event, id: string)
    requires Next(w, s, e).Some? && WorkUnfinished(s) && id in s.results && Final(s.results[id])
    ensures var t := Next(w, s, e).value; id in t.results && t.results[id] == s.results[id]
  {
    hide Decide, ActiveAfter;
  }

  /**
   Once a command has such a result, nothing is ever done for it again: it is only begun, answered from the result,
   reported, released and acknowledged, or given up.
   */
  lemma FinalIsOnlyReplayed(w: World, trace: seq<Event>, states: seq<State>, n: nat, m: nat)
    requires Run(w, trace, states) && n <= m < |trace| && trace[m].On?
    requires trace[m].c.id in states[n].results
    requires var r := states[n].results[trace[m].c.id]; r.status != FailedStatus || r.code != ""
    ensures trace[m].what in {Begin, Replay, StartReported, SyncReported, Released, Acked, Abandoned}
    ensures trace[m].what == Replay ==> states[m + 1].busy.Some? &&
                                        states[m + 1].busy.value.at == Answered(states[n].results[trace[m].c.id])
  {
    hide ActiveAfter;
    FinalStays(w, trace, states, n, m, trace[m].c.id);
    RunStep(w, trace, states, m);
    RunWorkUnfinished(w, trace, states, m);
  }

  /** Only such a result is ever replayed. */
  lemma OnlyFinalIsReplayed(w: World, trace: seq<Event>, states: seq<State>, m: nat)
    requires Run(w, trace, states) && m < |trace| && trace[m].On? && trace[m].what == Replay
    ensures trace[m].c.id in states[m].results
    ensures var r := states[m].results[trace[m].c.id]; r.status != FailedStatus || r.code != ""
  {
    hide ActiveAfter, DisksAfter;
    RunStep(w, trace, states, m);
  }

  /** A stored failure without a code is not replayed, and the command is executed as if nothing were stored. */
  lemma UncodedFailureIsExecuted(w: World, s: State, c: Command, executes: nat)
    requires c.id in s.results && s.results[c.id] == Result(FailedStatus, "")
    ensures Decide(w.node, s.results, s.active, c) == Decide(w.node, s.results - {c.id}, s.active, c)
    ensures Next(w, Doing(s, c, Deciding, executes), On(c, Replay)).None?
  {
    hide ActiveAfter, DisksAfter;
  }

  // ---------------------------------------------------------------- at most two executions

  /** A second pass through the stop loop starts with the stop recorded as reported, so it must sync. */
  ghost predicate SecondPassSyncs(w: World, s: State)
  {
    s.busy.Some? ==>
      var b := s.busy.value;
      && 1 <= b.executes <= 2
      && (b.executes == 2 && b.at == Deciding ==> Decide(w.node, s.results, s.active, b.c) == ToSync)
      && (b.executes == 2 ==>
            b.at == Deciding || b.at == Uploading || (b.at.Finished? && b.at.result.status == SyncedStatus) ||
            b.at.Answered? || b.at.Releasing? || b.at.Acknowledging?)
      && (b.at.Halting? || b.at == Reporting || b.at == Marking ==> StopPass(w, s, b))
      && (b.at.Halting? ==> b.at.record.assignment == b.c.assignment && b.at.record.phase == Stopped)
      && (b.at == Reporting || b.at == Marking ==>
            b.c.service in s.active && s.active[b.c.service].assignment == b.c.assignment &&
            s.active[b.c.service].phase == Stopped)
  }

  /** The command passed the checks that lead to the stop loop. */
  ghost predicate StopPass(w: World, s: State, b: Busy)
  {
    && b.executes == 1 && b.c.kind == StopAndSync
    && b.c.id != "" && b.c.service != "" && b.c.assignment != "" && b.c.node == w.node
    && !(b.c.id in s.results && Final(s.results[b.c.id]))
  }

  lemma SecondPassStep(w: World, s: State, e: Event)
    requires Next(w, s, e).Some? && SecondPassSyncs(w, s)
    ensures SecondPassSyncs(w, Next(w, s, e).value)
  {
    hide DisksAfter;
  }

  /** `Process` leaves its stop and report loop after at most two calls of `Execute`. */
  lemma {:induction false} AtMostTwoExecutes(w: World, trace: seq<Event>, states: seq<State>, n: nat)
    requires Run(w, trace, states) && n <= |trace|
    ensures SecondPassSyncs(w, states[n])
    ensures states[n].busy.Some? ==> states[n].busy.value.executes <= 2
  {
    hide Next, Decide, StopPass;
    if n > 0 {
      AtMostTwoExecutes(w, trace, states, n - 1);
      RunStep(w, trace, states, n - 1);
      SecondPassStep(w, states[n - 1], trace[n - 1]);
    }
  }

  // ---------------------------------------------------------------- runs worth knowing

  /** A run, paired with its states, that ends in `s`. */
  datatype Path = Path(trace: seq<Event>, states: seq<State>)

  ghost predicate Reaches(w: World, p: Path, s: State)
  {
    Run(w, p.trace, p.states) && |p.states| == |p.trace| + 1 && p.states[|p.trace|] == s
  }

  lemma Go(w: World, p: Path, s: State, e: Event, t: State) returns (q: Path)
    requires Reaches(w, p, s) && Next(w, s, e) == Some(t)
    ensures Reaches(w, q, t) && q.trace == p.trace + [e] && q.states == p.states + [t]
    ensures |p.states| == |p.trace| + 1
  {
    hide Next;
    RunExtends(w, p.trace, p.states, e, t);
    q := Path(p.trace + [e], p.states + [t]);
  }

  lemma EmptyPath(w: World) returns (p: Path)
    ensures Reaches(w, p, EMPTY) && p.trace == [] && |p.states| == 1
  {
    p := Path([], [EMPTY]);
  }

  /** A well-formed command for this node. */
  ghost predicate Usable(w: World, c: Command)
  {
    c == w.command(c.id) && c.id != "" && c.service != "" && c.assignment != "" && c.node == w.node && c.connected
  }

  /** A command that is about to begin, without a result so far. */
  ghost predicate Ready(w: World, s: State, c: Command)
  {
    Usable(w, c) && s.busy.None? && c.id !in s.results
  }

  function Doing(s: State, c: Command, at: Place, executes: nat): State
  {
    s.(busy := Some(Busy(c, at, executes)))
  }

  function Having(s: State, c: Command, phase: Phase, reported: bool): State
  {
    s.(active := s.active[c.service := Active(c.assignment, phase, reported)])
  }

  /** New contents for the service. */
  function Filled(s: State, c: Command): State
  {
    s.(disks := Disks(s.disks.contents[c.service := s.disks.next], s.disks.staged, s.disks.next + 1))
  }

  function Freed(s: State, service: string): State
  {
    s.(disks := s.disks.(contents := s.disks.contents - {service}))
  }

  function Staging(s: State, c: Command): State
  {
    s.(disks := s.disks.(staged := s.disks.staged[c.id := Contents(s, c.service)]))
  }

  const SYNCED := Result(SyncedStatus, "")
  const STARTED := Result(StartedStatus, "")

  lemma Crashes(w: World, p0: Path, s: State) returns (p: Path)
    requires Reaches(w, p0, s)
    ensures Reaches(w, p, s.(busy := None)) && p.trace == p0.trace + [Crash] && p.states == p0.states + [s.(busy := None)]
  {
    hide Reaches;
    p := Go(w, p0, s, Crash, s.(busy := None));
  }

  lemma BeginStep(w: World, s: State, c: Command)
    requires Usable(w, c) && s.busy.None?
    ensures Next(w, s, On(c, Begin)) == Some(Doing(s, c, Deciding, 1))
  {
  }

  // -------------------------------------------------------------- stops

  lemma HaltNothingStep(w: World, s: State, stop: Command)
    requires Ready(w, s, stop) && stop.kind == StopAndSync && stop.service !in s.active
    ensures Next(w, Doing(s, stop, Deciding, 1), On(stop, NoAssignment)) == Some(Doing(s, stop, Halting(Halted'(stop)), 1))
  {
  }

  lemma StopStep(w: World, s: State, stop: Command)
    requires Ready(w, s, stop) && stop.kind == StopAndSync && stop.service in s.active
    requires s.active[stop.service].assignment == stop.assignment && s.active[stop.service].phase != Stopped
    ensures Next(w, Doing(s, stop, Deciding, 1), On(stop, StopOk)) ==
      Some(Doing(Filled(s, stop), stop, Halting(Halted'(stop)), 1))
  {
  }

  lemma StillStoppedStep(w: World, s: State, stop: Command)
    requires Ready(w, s, stop) && stop.kind == StopAndSync && stop.service in s.active && s.active[stop.service] == Halted'(stop)
    ensures Next(w, Doing(s, stop, Deciding, 1), On(stop, StillStopped)) == Some(Doing(s, stop, Halting(Halted'(stop)), 1))
  {
  }

  lemma SetStoppedStep(w: World, s: State, stop: Command)
    ensures Next(w, Doing(s, stop, Halting(Halted'(stop)), 1), On(stop, SetStopped)) ==
      Some(Doing(Having(s, stop, Stopped, false), stop, Reporting, 1))
  {
    hide Decide;
  }

  lemma ReportStep(w: World, s: State, stop: Command)
    ensures Next(w, Doing(s, stop, Reporting, 1), On(stop, ReportAccepted)) == Some(Doing(s, stop, Marking, 1))
  {
    hide Decide;
  }

  lemma MarkStep(w: World, s: State, stop: Command)
    ensures Next(w, Doing(Having(s, stop, Stopped, false), stop, Marking, 1), On(stop, Marked)) ==
      Some(Doing(Having(s, stop, Stopped, true), stop, Deciding, 2))
  {
    hide Decide;
    var before := Having(s, stop, Stopped, false).active;
    assert before[stop.service := before[stop.service].(stopReported := true)] == Having(s, stop, Stopped, true).active;
  }

  /** From the stop to the point where a sync is due. */
  lemma ReportsStop(w: World, p0: Path, s: State, stop: Command) returns (p: Path)
    requires Reaches(w, p0, Doing(s, stop, Halting(Halted'(stop)), 1))
    ensures p.trace == p0.trace + [On(stop, SetStopped), On(stop, ReportAccepted), On(stop, Marked)]
    ensures |p.states| == |p0.states| + 3 && p0.states <= p.states
    ensures Reaches(w, p, Doing(Having(s, stop, Stopped, true), stop, Deciding, 2))
  {
    hide Reaches, Next, Having;
    var t := Having(s, stop, Stopped, false);
    SetStoppedStep(w, s, stop);
    ReportStep(w, t, stop);
    MarkStep(w, s, stop);
    p := Go(w, p0, Doing(s, stop, Halting(Halted'(stop)), 1), On(stop, SetStopped), Doing(t, stop, Reporting, 1));
    p := Go(w, p, Doing(t, stop, Reporting, 1), On(stop, ReportAccepted), Doing(t, stop, Marking, 1));
    p := Go(w, p, Doing(t, stop, Marking, 1), On(stop, Marked), Doing(Having(s, stop, Stopped, true), stop, Deciding, 2));
  }

  /** A stop that finds nothing recorded. */
  lemma StopsNothing(w: World, p0: Path, s: State, stop: Command) returns (p: Path)
    requires Reaches(w, p0, s) && Ready(w, s, stop) && stop.kind == StopAndSync && stop.service !in s.active
    ensures p.trace == p0.trace +
      [On(stop, Begin), On(stop, NoAssignment), On(stop, SetStopped), On(stop, ReportAccepted), On(stop, Marked)]
    ensures |p0.states| == |p0.trace| + 1 && |p.states| == |p0.states| + 5 && p0.states <= p.states
    ensures p.states[|p0.trace| + 2].disks == s.disks
    ensures Reaches(w, p, Doing(Having(s, stop, Stopped, true), stop, Deciding, 2))
  {
    hide Reaches, Next, Having;
    BeginStep(w, s, stop);
    HaltNothingStep(w, s, stop);
    p := Go(w, p0, s, On(stop, Begin), Doing(s, stop, Deciding, 1));
    p := Go(w, p, Doing(s, stop, Deciding, 1), On(stop, NoAssignment), Doing(s, stop, Halting(Halted'(stop)), 1));
    p := ReportsStop(w, p, s, stop);
  }

  /** A stop of what is recorded as starting or running. */
  lemma StopsContainer(w: World, p0: Path, s: State, stop: Command) returns (p: Path)
    requires Reaches(w, p0, s) && Ready(w, s, stop) && stop.kind == StopAndSync && stop.service in s.active
    requires s.active[stop.service].assignment == stop.assignment && s.active[stop.service].phase != Stopped
    ensures p.trace == p0.trace + [On(stop, Begin), On(stop, StopOk)]
    ensures |p0.states| == |p0.trace| + 1 && |p.states| == |p0.states| + 2 && p0.states <= p.states
    ensures p.states[|p0.trace| + 2].disks == Filled(s, stop).disks
    ensures Reaches(w, p, Doing(Filled(s, stop), stop, Halting(Halted'(stop)), 1))
  {
    hide Reaches, Next;
    BeginStep(w, s, stop);
    StopStep(w, s, stop);
    p := Go(w, p0, s, On(stop, Begin), Doing(s, stop, Deciding, 1));
    p := Go(w, p, Doing(s, stop, Deciding, 1), On(stop, StopOk), Doing(Filled(s, stop), stop, Halting(Halted'(stop)), 1));
  }

  // -------------------------------------------------------------- syncs

  /** The command is about to sync, in the first or the second pass. */
  ghost predicate Due(w: World, s: State, stop: Command)
  {
    && Usable(w, stop) && stop.kind == StopAndSync && stop.id !in s.results
    && stop.service in s.active && s.active[stop.service] == Active(stop.assignment, Stopped, true)
  }

  lemma DraftStep(w: World, s: State, stop: Command, executes: nat)
    requires Due(w, s, stop) && stop.id !in s.disks.staged
    ensures Next(w, Doing(s, stop, Deciding, executes), On(stop, Drafted)) ==
      Some(Doing(Staging(s, stop), stop, Uploading, executes))
  {
  }

  lemma ReloadStep(w: World, s: State, stop: Command, executes: nat)
    requires Due(w, s, stop) && stop.id in s.disks.staged
    ensures Next(w, Doing(s, stop, Deciding, executes), On(stop, Reloaded)) == Some(Doing(s, stop, Uploading, executes))
  {
  }

  lemma SyncFailsStep(w: World, s: State, stop: Command, executes: nat)
    requires s.busy.None?
    ensures Next(w, Doing(s, stop, Uploading, executes), On(stop, SyncFailed)) == Some(s)
  {
    hide Decide;
  }

  lemma SyncStep(w: World, s: State, stop: Command, executes: nat)
    requires stop.id !in s.disks.staged
    ensures Next(w, Doing(Staging(s, stop), stop, Uploading, executes), On(stop, SyncOk)) ==
      Some(Doing(s, stop, Finished(SYNCED, None), executes))
  {
    hide Decide;
    assert Staging(s, stop).disks.staged - {stop.id} == s.disks.staged;
  }

  lemma SyncCommitStep(w: World, s: State, stop: Command, executes: nat)
    ensures Next(w, Doing(s, stop, Finished(SYNCED, None), executes), On(stop, Committed(SYNCED))) ==
      Some(Doing(s.(results := s.results[stop.id := SYNCED], active := s.active - {stop.service}), stop, Answered(SYNCED), executes))
  {
    hide Decide;
  }

  function Synced(s: State, stop: Command): State
  {
    s.(results := s.results[stop.id := SYNCED], active := s.active - {stop.service}, busy := None)
  }

  /** A sync that succeeds and is committed; the process stops before its report. */
  lemma SyncsAndCommits(w: World, p0: Path, s: State, stop: Command, executes: nat) returns (p: Path)
    requires Reaches(w, p0, Doing(s, stop, Deciding, executes)) && Due(w, s, stop) && stop.id !in s.disks.staged
    ensures p.trace == p0.trace + [On(stop, Drafted), On(stop, SyncOk), On(stop, Committed(SYNCED)), Crash]
    ensures Reaches(w, p, Synced(s, stop))
  {
    hide Reaches, Next, Staging, Due;
    DraftStep(w, s, stop, executes);
    SyncStep(w, s, stop, executes);
    SyncCommitStep(w, s, stop, executes);
    var t := s.(results := s.results[stop.id := SYNCED], active := s.active - {stop.service});
    p := Go(w, p0, Doing(s, stop, Deciding, executes), On(stop, Drafted), Doing(Staging(s, stop), stop, Uploading, executes));
    p := Go(w, p, Doing(Staging(s, stop), stop, Uploading, executes), On(stop, SyncOk),
            Doing(s, stop, Finished(SYNCED, None), executes));
    p := Go(w, p, Doing(s, stop, Finished(SYNCED, None), executes), On(stop, Committed(SYNCED)),
            Doing(t, stop, Answered(SYNCED), executes));
    p := Crashes(w, p, Doing(t, stop, Answered(SYNCED), executes));
  }

  /** A sync that stages its draft and fails to upload it. */
  lemma DraftsAndFails(w: World, p0: Path, s: State, stop: Command, executes: nat) returns (p: Path)
    requires Reaches(w, p0, Doing(s, stop, Deciding, executes)) && s.busy.None?
    requires Due(w, s, stop) && stop.id !in s.disks.staged
    ensures p.trace == p0.trace + [On(stop, Drafted), On(stop, SyncFailed)]
    ensures |p.states| == |p0.states| + 2 && p0.states <= p.states && Reaches(w, p, Staging(s, stop))
  {
    hide Reaches, Next;
    DraftStep(w, s, stop, executes);
    SyncFailsStep(w, Staging(s, stop), stop, executes);
    p := Go(w, p0, Doing(s, stop, Deciding, executes), On(stop, Drafted), Doing(Staging(s, stop), stop, Uploading, executes));
    p := Go(w, p, Doing(Staging(s, stop), stop, Uploading, executes), On(stop, SyncFailed), Staging(s, stop));
  }

  // -------------------------------------------------------------- starts

  lemma RestoreStep(w: World, s: State, start: Command)
    requires Ready(w, s, start) && start.kind == RestoreAndStart
    requires start.service in s.active ==> s.active[start.service].phase == Stopped
    ensures Next(w, Doing(s, start, Deciding, 1), On(start, Restored)) == Some(Doing(Filled(s, start), start, WorkspaceRestored, 1))
  {
  }

  lemma RecordStep(w: World, s: State, start: Command)
    ensures Next(w, Doing(s, start, WorkspaceRestored, 1), On(start, Recorded)) ==
      Some(Doing(Having(s, start, Starting, false), start, Recorded', 1))
  {
    hide Decide;
  }

  lemma StartStep(w: World, s: State, start: Command)
    ensures Next(w, Doing(s, start, Recorded', 1), On(start, StartOk)) ==
      Some(Doing(Filled(s, start), start, Finished(STARTED, Some(Active(start.assignment, Running, false))), 1))
  {
    hide Decide;
  }

  lemma StartCommitStep(w: World, s: State, start: Command)
    ensures Next(w, Doing(s, start, Finished(STARTED, Some(Active(start.assignment, Running, false))), 1), On(start, Committed(STARTED))) ==
      Some(Doing(Having(s, start, Running, false).(results := s.results[start.id := STARTED]), start, Answered(STARTED), 1))
  {
    hide Decide;
  }

  /** A restore that is cut off before it is recorded. */
  lemma RestoreCutShort(w: World, p0: Path, s: State, start: Command) returns (p: Path)
    requires Reaches(w, p0, s) && Ready(w, s, start) && start.kind == RestoreAndStart
    requires start.service in s.active ==> s.active[start.service].phase == Stopped
    ensures p.trace == p0.trace + [On(start, Begin), On(start, Restored), Crash]
    ensures |p0.states| == |p0.trace| + 1 && |p.states| == |p0.states| + 3 && p0.states <= p.states
    ensures Reaches(w, p, Filled(s, start))
  {
    hide Reaches, Next;
    BeginStep(w, s, start);
    RestoreStep(w, s, start);
    p := Go(w, p0, s, On(start, Begin), Doing(s, start, Deciding, 1));
    p := Go(w, p, Doing(s, start, Deciding, 1), On(start, Restored), Doing(Filled(s, start), start, WorkspaceRestored, 1));
    p := Crashes(w, p, Doing(Filled(s, start), start, WorkspaceRestored, 1));
  }

  function Started(s: State, start: Command): State
  {
    Filled(Having(Filled(s, start), start, Starting, false), start)
  }

  /** A start up to the point where the container runs. */
  lemma ContainerStarts(w: World, p0: Path, s: State, start: Command) returns (p: Path)
    requires Reaches(w, p0, s) && Ready(w, s, start) && start.kind == RestoreAndStart
    requires start.service in s.active ==> s.active[start.service].phase == Stopped
    ensures p.trace == p0.trace + [On(start, Begin), On(start, Restored), On(start, Recorded), On(start, StartOk)]
    ensures |p0.states| == |p0.trace| + 1 && |p.states| == |p0.states| + 4 && p0.states <= p.states
    ensures Reaches(w, p, Doing(Started(s, start), start, Finished(STARTED, Some(Active(start.assignment, Running, false))), 1))
  {
    hide Reaches, Next, Filled, Having;
    var t := Filled(s, start);
    var u := Having(t, start, Starting, false);
    BeginStep(w, s, start);
    RestoreStep(w, s, start);
    RecordStep(w, t, start);
    StartStep(w, u, start);
    p := Go(w, p0, s, On(start, Begin), Doing(s, start, Deciding, 1));
    p := Go(w, p, Doing(s, start, Deciding, 1), On(start, Restored), Doing(t, start, WorkspaceRestored, 1));
    p := Go(w, p, Doing(t, start, WorkspaceRestored, 1), On(start, Recorded), Doing(u, start, Recorded', 1));
    p := Go(w, p, Doing(u, start, Recorded', 1), On(start, StartOk),
            Doing(Filled(u, start), start, Finished(STARTED, Some(Active(start.assignment, Running, false))), 1));
  }

  function Launched(s: State, start: Command): State
  {
    var t := Started(s, start);
    Having(t, start, Running, false).(results := s.results[start.id := STARTED], busy := None)
  }

  /** A start that is committed; the process stops before its report. */
  lemma StartsAndCommits(w: World, p0: Path, s: State, start: Command) returns (p: Path)
    requires Reaches(w, p0, s) && Ready(w, s, start) && start.kind == RestoreAndStart
    requires start.service in s.active ==> s.active[start.service].phase == Stopped
    ensures p.trace == p0.trace +
      [On(start, Begin), On(start, Restored), On(start, Recorded), On(start, StartOk), On(start, Committed(STARTED)), Crash]
    ensures |p0.states| == |p0.trace| + 1 && |p.states| == |p0.states| + 6 && p0.states <= p.states
    ensures Reaches(w, p, Launched(s, start))
  {
    hide Reaches, Next;
    var t := Started(s, start);
    StartCommitStep(w, t, start);
    p := ContainerStarts(w, p0, s, start);
    p := Go(w, p, Doing(t, start, Finished(STARTED, Some(Active(start.assignment, Running, false))), 1), On(start, Committed(STARTED)),
            Doing(Having(t, start, Running, false).(results := s.results[start.id := STARTED]), start, Answered(STARTED), 1));
    p := Crashes(w, p, Doing(Having(t, start, Running, false).(results := s.results[start.id := STARTED]), start, Answered(STARTED), 1));
  }

  // -------------------------------------------------------------- the runs

  /**
   A restore for another assignment replaces the workspace and the process stops before recording it;
   the redelivered stop then syncs the replaced workspace as its own.
   */
  lemma SyncAfterCutShortRestore(w: World, stop: Command, start: Command)
    returns (trace: seq<Event>, states: seq<State>)
    requires Usable(w, stop) && stop.kind == StopAndSync && Usable(w, start) && start.kind == RestoreAndStart
    requires start.service == stop.service
    ensures Run(w, trace, states) && |trace| == 11 && |states| == 12
    ensures states[11].busy.Some? && states[11].busy.value.c == stop && states[11].busy.value.at == Uploading
    ensures StoppedAt(trace, 11, stop.service, stop.assignment, 1) && CutShort(trace, 7, stop.service)
    ensures Contents(states[2], stop.service).None?
    ensures stop.id in states[11].disks.staged && states[11].disks.staged[stop.id].Some?
  {
    hide Run, Reaches, Next;
    var s := Having(EMPTY, stop, Stopped, true);
    var t := Filled(s, start);
    var p := EmptyPath(w);
    p := StopsNothing(w, p, EMPTY, stop);
    var states0 := p.states;
    p := Crashes(w, p, Doing(s, stop, Deciding, 2));
    p := RestoreCutShort(w, p, s, start);
    p := DraftsAgain(w, p, t, stop);
    RunOf(w, p, Doing(Staging(t, stop), stop, Uploading, 1));
    trace, states := p.trace, p.states;
    assert states[2] == states0[2];
  }

  /** A stop that was reported, delivered again, makes its draft. */
  lemma DraftsAgain(w: World, p0: Path, s: State, stop: Command) returns (p: Path)
    requires Reaches(w, p0, s) && s.busy.None? && Due(w, s, stop) && stop.id !in s.disks.staged
    ensures p.trace == p0.trace + [On(stop, Begin), On(stop, Drafted)]
    ensures |p0.states| == |p0.trace| + 1 && |p.states| == |p0.states| + 2 && p0.states <= p.states
    ensures Reaches(w, p, Doing(Staging(s, stop), stop, Uploading, 1))
  {
    hide Reaches, Next;
    BeginStep(w, s, stop);
    DraftStep(w, s, stop, 1);
    p := Go(w, p0, s, On(stop, Begin), Doing(s, stop, Deciding, 1));
    p := Go(w, p, Doing(s, stop, Deciding, 1), On(stop, Drafted), Doing(Staging(s, stop), stop, Uploading, 1));
  }

  lemma RunOf(w: World, p: Path, s: State)
    requires Reaches(w, p, s)
    ensures Run(w, p.trace, p.states) && |p.states| == |p.trace| + 1 && p.states[|p.trace|] == s
  {
  }

  /**
   The same restore does no harm to a stop that had already made its draft: what is uploaded is the draft, and not what
   is on disk by then.
   */
  lemma DraftOutlivesRestore(w: World, stop: Command, start: Command)
    returns (trace: seq<Event>, states: seq<State>)
    requires Usable(w, stop) && stop.kind == StopAndSync && Usable(w, start) && start.kind == RestoreAndStart
    requires start.service == stop.service
    ensures Run(w, trace, states) && |trace| == 12 && |states| == 13
    ensures states[12].busy.Some? && states[12].busy.value.c == stop && states[12].busy.value.at == Uploading
    ensures StoppedAt(trace, 12, stop.service, stop.assignment, 1) && CutShort(trace, 8, stop.service)
    ensures stop.id in states[12].disks.staged && states[12].disks.staged[stop.id] == Contents(states[2], stop.service)
    ensures Contents(states[12], stop.service) != Contents(states[2], stop.service)
  {
    hide Run, Reaches, Next;
    var s := Having(EMPTY, stop, Stopped, true);
    var t := Staging(s, stop);
    var u := Filled(t, start);
    var p := EmptyPath(w);
    p := StopsNothing(w, p, EMPTY, stop);
    var states0 := p.states;
    p := DraftsAndFails(w, p, s, stop, 2);
    p := RestoreCutShort(w, p, t, start);
    BeginStep(w, u, stop);
    ReloadStep(w, u, stop, 1);
    p := Go(w, p, u, On(stop, Begin), Doing(u, stop, Deciding, 1));
    p := Go(w, p, Doing(u, stop, Deciding, 1), On(stop, Reloaded), Doing(u, stop, Uploading, 1));
    RunOf(w, p, Doing(u, stop, Uploading, 1));
    trace, states := p.trace, p.states;
    assert states[2] == states0[2];
  }

  /** A start whose result was never stored, and its stop, which makes a draft and fails to upload it. */
  lemma FirstSession(w: World, start: Command, stop: Command) returns (p: Path, s: State)
    requires Usable(w, start) && start.kind == RestoreAndStart && Usable(w, stop) && stop.kind == StopAndSync
    requires start.service == stop.service && start.assignment == stop.assignment
    ensures Reaches(w, p, s) && s.busy.None? && s.results == map[] && s.disks.next == 3
    ensures s.active == map[stop.service := Active(stop.assignment, Stopped, true)]
    ensures stop.id in s.disks.staged && s.disks.staged[stop.id] == Some(2)
    ensures |p.trace| == 12 && |p.states| == 13 && p.trace[6] == On(stop, StopOk) && Contents(p.states[7], stop.service) == Some(2)
  {
    hide Run, Reaches, Next;
    var t := Started(EMPTY, start);
    var u := Filled(t, stop);
    var v := Having(u, stop, Stopped, true);
    p := EmptyPath(w);
    p := ContainerStarts(w, p, EMPTY, start);
    p := Crashes(w, p, Doing(t, start, Finished(STARTED, Some(Active(start.assignment, Running, false))), 1));
    p := StopsContainer(w, p, t, stop);
    var states0 := p.states;
    p := ReportsStop(w, p, u, stop);
    p := DraftsAndFails(w, p, v, stop, 2);
    s := Staging(v, stop);
    assert s.active == map[stop.service := Active(stop.assignment, Stopped, true)];
    assert p.states[7] == states0[7];
  }

  /** The start, delivered again, runs a second session, which is stopped and reported by the same stop. */
  lemma SecondSession(w: World, p0: Path, s: State, start: Command, stop: Command) returns (p: Path, t: State)
    requires Usable(w, start) && start.kind == RestoreAndStart && Usable(w, stop) && stop.kind == StopAndSync
    requires start.service == stop.service && start.assignment == stop.assignment && start.id != stop.id
    requires Reaches(w, p0, s) && s.busy.None? && s.results == map[] && stop.id in s.disks.staged
    requires s.active == map[stop.service := Active(stop.assignment, Stopped, true)]
    ensures Reaches(w, p, Doing(t, stop, Deciding, 2)) && Due(w, t, stop) && t.disks.staged == s.disks.staged
    ensures |p0.states| == |p0.trace| + 1 && |p.trace| == |p0.trace| + 11 && |p.states| == |p0.states| + 11 && p0.states <= p.states
    ensures p.trace[|p0.trace| + 7..] == [On(stop, StopOk), On(stop, SetStopped), On(stop, ReportAccepted), On(stop, Marked)]
    ensures p0.trace <= p.trace
    ensures Contents(p.states[|p0.trace| + 8], stop.service) == Contents(t, stop.service) == Some(s.disks.next + 2)
  {
    hide Run, Reaches, Next;
    p := StartsAndCommits(w, p0, s, start);
    var u := Launched(s, start);
    p := StopsContainer(w, p, u, stop);
    var states1 := p.states;
    p := ReportsStop(w, p, Filled(u, stop), stop);
    t := Having(Filled(u, stop), stop, Stopped, true);
    assert p.states[|p0.trace| + 8] == states1[|p0.trace| + 8];
  }

  lemma OldDraftTrace(trace: seq<Event>, k: nat, stop: Command)
    requires |trace| == k + 5
    requires trace[k..] == [On(stop, StopOk), On(stop, SetStopped), On(stop, ReportAccepted), On(stop, Marked), On(stop, Reloaded)]
    ensures StoppedAt(trace, k + 5, stop.service, stop.assignment, k) && Undisturbed(trace, k, k + 5, stop.service)
  {
    forall m | k <= m < k + 5 ensures trace[m] == trace[k..][m - k] {
    }
  }

  /**
   A draft that was never uploaded outlives the session it was made in. The start, delivered again, runs a second
   session, and its stop uploads the draft of the first one, with nothing disturbed since the second stop.
   */
  lemma OldDraftIsSynced(w: World, start: Command, stop: Command)
    returns (trace: seq<Event>, states: seq<State>)
    requires Usable(w, start) && start.kind == RestoreAndStart && Usable(w, stop) && stop.kind == StopAndSync
    requires start.service == stop.service && start.assignment == stop.assignment && start.id != stop.id
    ensures Run(w, trace, states) && |trace| == 24 && |states| == 25
    ensures states[24].busy.Some? && states[24].busy.value.c == stop && states[24].busy.value.at == Uploading
    ensures StoppedAt(trace, 24, stop.service, stop.assignment, 19) && Undisturbed(trace, 19, 24, stop.service)
    ensures trace[6] == On(stop, StopOk) && stop.id in states[24].disks.staged
    ensures states[24].disks.staged[stop.id] == Contents(states[7], stop.service)
    ensures Contents(states[24], stop.service) == Contents(states[20], stop.service) != Contents(states[7], stop.service)
  {
    hide Run, Reaches, Next, StoppedAt, Undisturbed;
    var p0, s := FirstSession(w, start, stop);
    var p1, t := SecondSession(w, p0, s, start, stop);
    ReloadStep(w, t, stop, 2);
    var p := Go(w, p1, Doing(t, stop, Deciding, 2), On(stop, Reloaded), Doing(t, stop, Uploading, 2));
    RunOf(w, p, Doing(t, stop, Uploading, 2));
    trace, states := p.trace, p.states;
    assert trace[19..] == p1.trace[19..] + [On(stop, Reloaded)];
    OldDraftTrace(trace, 19, stop);
    assert states[7] == p0.states[7] && states[20] == p1.states[20];
    assert trace[6] == p0.trace[6];
  }

  /** A stop of nothing that syncs and commits, and a later start that runs. */
  lemma SyncedThenLaunched(w: World, stop: Command, start: Command) returns (p: Path, s: State)
    requires Usable(w, stop) && stop.kind == StopAndSync && Usable(w, start) && start.kind == RestoreAndStart
    requires start.service == stop.service && start.id != stop.id
    ensures Reaches(w, p, s) && |p.states| == |p.trace| + 1
    ensures s.results == map[stop.id := SYNCED, start.id := STARTED] && s.busy.None? && s.disks.staged == map[]
    ensures s.active == map[start.service := Active(start.assignment, Running, false)]
  {
    hide Run, Reaches, Next;
    var t := Having(EMPTY, stop, Stopped, true);
    var u := Synced(t, stop);
    p := EmptyPath(w);
    p := StopsNothing(w, p, EMPTY, stop);
    p := SyncsAndCommits(w, p, t, stop, 2);
    p := StartsAndCommits(w, p, u, start);
    s := Launched(u, start);
    assert s.active == map[start.service := Active(start.assignment, Running, false)];
    RunOf(w, p, s);
  }

  lemma ReplayStep(w: World, s: State, c: Command)
    requires Usable(w, c) && s.busy.None? && c.id in s.results && s.results[c.id] == SYNCED
    ensures Next(w, Doing(s, c, Deciding, 1), On(c, Replay)) == Some(Doing(s, c, Answered(SYNCED), 1))
  {
  }

  lemma ReleaseSteps(w: World, s: State, c: Command)
    ensures Next(w, Doing(s, c, Answered(SYNCED), 1), On(c, SyncReported)) == Some(Doing(s, c, Releasing, 1))
    ensures Next(w, Doing(s, c, Releasing, 1), On(c, Released)) ==
      Some(Doing(Freed(s, c.service), c, Acknowledging(SYNCED), 1))
  {
    hide Decide;
  }

  /** A redelivered stop with a stored sync result goes straight to its report and its release. */
  lemma ReplayReleases(w: World, p0: Path, s: State, stop: Command) returns (p: Path)
    requires Usable(w, stop) && s.busy.None? && stop.id in s.results && s.results[stop.id] == SYNCED && Reaches(w, p0, s)
    ensures p.trace == p0.trace + [On(stop, Begin), On(stop, Replay), On(stop, SyncReported), On(stop, Released)]
    ensures |p0.states| == |p0.trace| + 1 && |p.states| == |p0.states| + 4 && p0.states <= p.states
    ensures Reaches(w, p, Doing(Freed(s, stop.service), stop, Acknowledging(SYNCED), 1))
  {
    hide Reaches, Next, Freed;
    BeginStep(w, s, stop);
    ReplayStep(w, s, stop);
    ReleaseSteps(w, s, stop);
    p := Go(w, p0, s, On(stop, Begin), Doing(s, stop, Deciding, 1));
    p := Go(w, p, Doing(s, stop, Deciding, 1), On(stop, Replay), Doing(s, stop, Answered(SYNCED), 1));
    p := Go(w, p, Doing(s, stop, Answered(SYNCED), 1), On(stop, SyncReported), Doing(s, stop, Releasing, 1));
    p := Go(w, p, Doing(s, stop, Releasing, 1), On(stop, Released), Doing(Freed(s, stop.service), stop, Acknowledging(SYNCED), 1));
  }

  /** A later start runs, and the stop, delivered again, releases the running assignment's workspace. */
  lemma ReleaseUnderRunningService(w: World, stop: Command, start: Command)
    returns (trace: seq<Event>, states: seq<State>)
    requires Usable(w, stop) && stop.kind == StopAndSync && Usable(w, start) && start.kind == RestoreAndStart
    requires start.service == stop.service && start.id != stop.id
    ensures Run(w, trace, states) && |states| == |trace| + 1 && trace != []
    ensures trace[|trace| - 1] == On(stop, Released)
    ensures states[|trace|].active == map[stop.service := Active(start.assignment, Running, false)]
    ensures Contents(states[|trace|], stop.service).None?
  {
    hide Run, Reaches, Next;
    var p, s := SyncedThenLaunched(w, stop, start);
    p := ReplayReleases(w, p, s, stop);
    RunOf(w, p, Doing(Freed(s, stop.service), stop, Acknowledging(SYNCED), 1));
    trace, states := p.trace, p.states;
  }

  /** A stop that is recorded, and cut off before it is reported. */
  lemma StopsUnreported(w: World, p0: Path, s: State, stop: Command) returns (p: Path)
    requires Reaches(w, p0, s) && Ready(w, s, stop) && stop.kind == StopAndSync && stop.service in s.active
    requires s.active[stop.service].assignment == stop.assignment && s.active[stop.service].phase != Stopped
    ensures p.trace == p0.trace + [On(stop, Begin), On(stop, StopOk), On(stop, SetStopped), Crash]
    ensures |p0.states| == |p0.trace| + 1 && |p.states| == |p0.states| + 4 && p0.states <= p.states
    ensures p.states[|p0.trace| + 2].disks == Filled(s, stop).disks
    ensures Reaches(w, p, Having(Filled(s, stop), stop, Stopped, false))
  {
    hide Reaches, Next;
    var t := Filled(s, stop);
    SetStoppedStep(w, t, stop);
    p := StopsContainer(w, p0, s, stop);
    p := Go(w, p, Doing(t, stop, Halting(Halted'(stop)), 1), On(stop, SetStopped), Doing(Having(t, stop, Stopped, false), stop, Reporting, 1));
    p := Crashes(w, p, Doing(Having(t, stop, Stopped, false), stop, Reporting, 1));
  }

  /** It is taken up again, up to its draft. */
  lemma TakesUpStop(w: World, p0: Path, s: State, stop: Command) returns (p: Path)
    requires Reaches(w, p0, s) && Ready(w, s, stop) && stop.kind == StopAndSync && stop.id !in s.disks.staged
    requires stop.service in s.active && s.active[stop.service] == Halted'(stop)
    ensures p.trace == p0.trace + [On(stop, Begin), On(stop, StillStopped), On(stop, SetStopped), On(stop, ReportAccepted),
                                   On(stop, Marked), On(stop, Drafted)]
    ensures |p0.states| == |p0.trace| + 1 && |p.states| == |p0.states| + 6 && p0.states <= p.states
    ensures Reaches(w, p, Doing(Staging(Having(s, stop, Stopped, true), stop), stop, Uploading, 2))
  {
    hide Reaches, Next;
    var t := Having(s, stop, Stopped, true);
    BeginStep(w, s, stop);
    StillStoppedStep(w, s, stop);
    DraftStep(w, t, stop, 2);
    p := Go(w, p0, s, On(stop, Begin), Doing(s, stop, Deciding, 1));
    p := Go(w, p, Doing(s, stop, Deciding, 1), On(stop, StillStopped), Doing(s, stop, Halting(Halted'(stop)), 1));
    p := ReportsStop(w, p, s, stop);
    p := Go(w, p, Doing(t, stop, Deciding, 2), On(stop, Drafted), Doing(Staging(t, stop), stop, Uploading, 2));
  }

  /** A later stop leaves contents, and an earlier one, delivered again, releases them. */
  lemma ReleasedAfterStop(w: World, p0: Path, s: State, stop: Command, later: Command) returns (p: Path)
    requires Reaches(w, p0, s) && Ready(w, s, later) && later.kind == StopAndSync && later.service in s.active
    requires s.active[later.service].assignment == later.assignment && s.active[later.service].phase != Stopped
    requires Usable(w, stop) && stop.service == later.service && stop.id in s.results && s.results[stop.id] == SYNCED
    ensures p.trace == p0.trace + [On(later, Begin), On(later, StopOk), On(later, SetStopped), Crash, On(stop, Begin),
                                   On(stop, Replay), On(stop, SyncReported), On(stop, Released), Crash]
    ensures |p0.states| == |p0.trace| + 1 && |p.states| == |p0.states| + 9 && p0.states <= p.states
    ensures Contents(p.states[|p0.trace| + 2], stop.service).Some?
    ensures Reaches(w, p, Freed(Having(Filled(s, later), later, Stopped, false), stop.service))
  {
    hide Reaches, Next;
    var t := Having(Filled(s, later), later, Stopped, false);
    p := StopsUnreported(w, p0, s, later);
    var states1 := p.states;
    p := ReplayReleases(w, p, t, stop);
    p := Crashes(w, p, Doing(Freed(t, stop.service), stop, Acknowledging(SYNCED), 1));
    assert p.states[|p0.trace| + 2] == states1[|p0.trace| + 2];
  }

  lemma ReleasedAfterStopTrace(trace: seq<Event>, k: nat, stop: Command, later: Command)
    requires stop.service == later.service && |trace| == k + 14
    requires trace[k..] == [On(later, StopOk), On(later, SetStopped), Crash, On(stop, Begin), On(stop, Replay),
                            On(stop, SyncReported), On(stop, Released), Crash, On(later, Begin), On(later, StillStopped),
                            On(later, SetStopped), On(later, ReportAccepted), On(later, Marked), On(later, Drafted)]
    ensures StoppedAt(trace, k + 14, stop.service, later.assignment, k)
    ensures forall m :: k < m < k + 14 && trace[m].On? ==> trace[m].what != Restored && !FailedLate(trace[m], stop.service)
  {
    forall m | k < m < k + 14
      ensures !Starts(trace[m], stop.service) && !Halts(trace[m], stop.service)
      ensures trace[m].On? ==> trace[m].what != Restored && !FailedLate(trace[m], stop.service)
    {
      assert trace[m] == trace[k..][m - k];
    }
    assert trace[k] == trace[k..][0];
  }

  /**
   No restore is needed for it: the first stop, delivered again after a later assignment was stopped, releases
   what that stop left, and the later stop then syncs an empty workspace.
   */
  lemma SyncAfterRelease(w: World, stop: Command, start: Command, later: Command)
    returns (trace: seq<Event>, states: seq<State>, k: nat)
    requires Usable(w, stop) && stop.kind == StopAndSync && Usable(w, start) && start.kind == RestoreAndStart
    requires Usable(w, later) && later.kind == StopAndSync && later.assignment == start.assignment
    requires start.service == stop.service == later.service
    requires stop.id != start.id && start.id != later.id && later.id != stop.id
    ensures Run(w, trace, states) && |trace| == k + 14 && |states| == k + 15
    ensures states[k + 14].busy.Some? && states[k + 14].busy.value.c == later && states[k + 14].busy.value.at == Uploading
    ensures StoppedAt(trace, k + 14, stop.service, later.assignment, k)
    ensures forall m :: k < m < k + 14 && trace[m].On? ==> trace[m].what != Restored && !FailedLate(trace[m], stop.service)
    ensures Contents(states[k + 1], stop.service).Some?
    ensures later.id in states[k + 14].disks.staged && states[k + 14].disks.staged[later.id].None?
  {
    hide Run, Reaches, Next, StoppedAt, FailedLate;
    var p, s := SyncedThenLaunched(w, stop, start);
    k := |p.trace| + 1;
    p := ReleasedAfterStop(w, p, s, stop, later);
    var states1 := p.states;
    var u := Freed(Having(Filled(s, later), later, Stopped, false), stop.service);
    p := TakesUpStop(w, p, u, later);
    RunOf(w, p, Doing(Staging(Having(u, later, Stopped, true), later), later, Uploading, 2));
    trace, states := p.trace, p.states;
    ReleasedAfterStopTrace(trace, k, stop, later);
    assert states[k + 1] == states1[k + 1];
  }
}
