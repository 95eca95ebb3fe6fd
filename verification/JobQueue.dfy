/**
 The compiler job queue as a protocol: what one queue operation, one durable file step or one crash
 may do, and what holds along every run of such steps. Both queue implementations refine it.
 */
module JobQueue {
  import opened Options

  type Id = string
  type Body = seq<int>

  /** What `assertSameIdentity` compares. */
  datatype Identity = Identity(id: Id, deployment: string, fingerprint: string)

  datatype Status = Pending | Running | Retry | Terminal

  datatype Record = Record(
    identity: Identity, body: Body, parked: Option<Body>, status: Status, attempts: nat, nextAttemptAt: int)

  /** One step of a queue, as its callers and its files see it. */
  datatype Event =
    | Accepted(identity: Identity, body: Body, now: int)
    | Redelivered(identity: Identity, body: Body, now: int)
    | Duplicate(identity: Identity)
    | Refused(identity: Identity)
    | Idle
    | Claimed(id: Id, body: Body, attempts: nat, now: int)
    | Retried(id: Id, now: int)
    | Archived(id: Id)
    | Removed(id: Id)
    | Crashed
    | Recovered(id: Id)
    | Ready

  datatype State = State(jobs: map<Id, Record>, archive: map<Id, Record>, up: bool)

  const EMPTY := State(map[], map[], false)

  function Power2(n: nat): (r: nat)
    ensures r >= 1
  {
    if n == 0 then 1 else 2 * Power2(n - 1)
  }

  function Min(a: int, b: int): int { if a <= b then a else b }
  function Max(a: int, b: int): int { if a >= b then a else b }

  /** Exponential back-off from the base delay, doubling at most eight times and capped at five minutes. */
  function RetryDelay(base: nat, attempts: nat): (r: int)
  {
    Min(base * Power2(Min(Max(attempts - 1, 0), 8)), 300000)
  }

  function Fresh(identity: Identity, body: Body, now: int): Record
  {
    Record(identity, body, None, Pending, 0, now)
  }

  /** A body delivered again: parked while the job runs, otherwise in place and due at once. */
  function Redeliver(r: Record, body: Body, now: int): Record
  {
    if r.status == Running then r.(parked := Some(body))
    else r.(body := body, status := Pending, nextAttemptAt := now)
  }

  predicate Eligible(r: Record, now: int)
  {
    r.status != Running && r.nextAttemptAt <= now
  }

  function Claim(r: Record): Record
  {
    r.(status := Running, attempts := r.attempts + 1)
  }

  /** After a failed attempt the parked body, if any, takes over. */
  function Reschedule(r: Record, base: nat, now: int): Record
  {
    r.(body := if r.parked.Some? then r.parked.value else r.body, parked := None, status := Retry,
       nextAttemptAt := now + RetryDelay(base, r.attempts))
  }

  ghost predicate Step(base: nat, s: State, e: Event, t: State)
  {
    match e
    case Accepted(identity, body, now) =>
      s.up && identity.id !in s.jobs && identity.id !in s.archive &&
      t == s.(jobs := s.jobs[identity.id := Fresh(identity, body, now)])
    case Redelivered(identity, body, now) =>
      s.up && identity.id in s.jobs && s.jobs[identity.id].identity == identity &&
      t == s.(jobs := s.jobs[identity.id := Redeliver(s.jobs[identity.id], body, now)])
    case Duplicate(identity) =>
      s.up && identity.id in s.archive && s.archive[identity.id].identity == identity && t == s
    case Refused(identity) => t == s
    case Idle => s.up && t == s
    case Claimed(id, body, attempts, now) =>
      s.up && id in s.jobs && Eligible(s.jobs[id], now) &&
      body == s.jobs[id].body && attempts == s.jobs[id].attempts + 1 &&
      t == s.(jobs := s.jobs[id := Claim(s.jobs[id])])
    case Retried(id, now) =>
      s.up && id in s.jobs && s.jobs[id].status == Running &&
      t == s.(jobs := s.jobs[id := Reschedule(s.jobs[id], base, now)])
    case Archived(id) =>
      s.up && id in s.jobs && s.jobs[id].status == Running &&
      t == s.(jobs := s.jobs - {id}, archive := s.archive[id := s.jobs[id].(status := Terminal)])
    case Removed(id) => id in s.archive && t == s
    case Crashed => t == s.(up := false)
    case Recovered(id) =>
      !s.up && id in s.jobs && s.jobs[id].status == Running &&
      t == s.(jobs := s.jobs[id := s.jobs[id].(status := Pending)])
    case Ready =>
      !s.up && (forall id :: id in s.jobs ==> s.jobs[id].status != Running) && t == s.(up := true)
  }

  /** A run: from the empty queue, every step a queue step. */
  ghost predicate Run(base: nat, trace: seq<Event>, states: seq<State>)
  {
    && |states| == |trace| + 1
    && states[0] == EMPTY
    && forall i :: 0 <= i < |trace| ==> Step(base, states[i], trace[i], states[i + 1])
  }

  lemma RunExtends(base: nat, trace: seq<Event>, states: seq<State>, e: Event, t: State)
    requires Run(base, trace, states)
    requires Step(base, states[|trace|], e, t)
    ensures Run(base, trace + [e], states + [t])
  {
    hide Step;
    var trace', states' := trace + [e], states + [t];
    forall i | 0 <= i < |trace'| ensures Step(base, states'[i], trace'[i], states'[i + 1]) {
      if i < |trace| {
        assert states'[i] == states[i] && states'[i + 1] == states[i + 1] && trace'[i] == trace[i];
      }
    }
  }

  // ---------------------------------------------------------------- what a history says

  /** How often a job was claimed. */
  function Claims(trace: seq<Event>, id: Id): nat
  {
    if trace == [] then 0
    else
      var last := trace[|trace| - 1];
      Claims(trace[..|trace| - 1], id) + if last.Claimed? && last.id == id then 1 else 0
  }

  /** A claim was handed out and neither finished nor ended by a crash. */
  predicate Outstanding(trace: seq<Event>, id: Id)
  {
    if trace == [] then false
    else
      var last, before := trace[|trace| - 1], trace[..|trace| - 1];
      match last
      case Claimed(i, _, _, _) => i == id || Outstanding(before, id)
      case Retried(i, _) => i != id && Outstanding(before, id)
      case Archived(i) => i != id && Outstanding(before, id)
      case Crashed => false
      case _ => Outstanding(before, id)
  }

  /** The identity a job was accepted under. */
  function FirstIdentity(trace: seq<Event>, id: Id): Option<Identity>
  {
    if trace == [] then None
    else
      var last, before := trace[|trace| - 1], FirstIdentity(trace[..|trace| - 1], id);
      if before.Some? then before
      else if last.Accepted? && last.identity.id == id then Some(last.identity)
      else None
  }

  predicate EverArchived(trace: seq<Event>, id: Id)
  {
    trace != [] && (trace[|trace| - 1] == Archived(id) || EverArchived(trace[..|trace| - 1], id))
  }

  /** The body delivered last. */
  function Latest(trace: seq<Event>, id: Id): Option<Body>
  {
    if trace == [] then None
    else
      var last := trace[|trace| - 1];
      if (last.Accepted? || last.Redelivered?) && last.identity.id == id then Some(last.body)
      else Latest(trace[..|trace| - 1], id)
  }

  predicate Delivered(trace: seq<Event>, id: Id, body: Body)
  {
    trace != [] &&
    var last := trace[|trace| - 1];
    (((last.Accepted? || last.Redelivered?) && last.identity.id == id && last.body == body) ||
     Delivered(trace[..|trace| - 1], id, body))
  }

  predicate CrashFree(trace: seq<Event>)
  {
    trace == [] || (trace[|trace| - 1] != Crashed && CrashFree(trace[..|trace| - 1]))
  }

  // ---------------------------------------------------------------- the invariant of one job

  /** Everything the state remembers about a job agrees with the job's history. */
  ghost predicate Agrees(trace: seq<Event>, s: State, id: Id)
  {
    && (id in s.jobs ==> id !in s.archive)
    && (FirstIdentity(trace, id).Some? <==> id in s.jobs || id in s.archive)
    && (EverArchived(trace, id) <==> id in s.archive)
    && (Outstanding(trace, id) ==> s.up && id in s.jobs && s.jobs[id].status == Running)
    && (id in s.jobs ==> RecordAgrees(trace, id, s.jobs[id]))
    && (id in s.archive ==> RecordAgrees(trace, id, s.archive[id]))
    && (FirstIdentity(trace, id).None? ==> Claims(trace, id) == 0)
  }

  ghost predicate RecordAgrees(trace: seq<Event>, id: Id, r: Record)
  {
    && r.identity.id == id
    && FirstIdentity(trace, id) == Some(r.identity)
    && r.attempts == Claims(trace, id)
    && Delivered(trace, id, r.body)
    && (r.parked.Some? ==> Delivered(trace, id, r.parked.value))
  }

  /** How one more event changes what the history of a job says. */
  lemma Extended(trace: seq<Event>, e: Event, id: Id)
    ensures Claims(trace + [e], id) == Claims(trace, id) + if e.Claimed? && e.id == id then 1 else 0
    ensures Outstanding(trace + [e], id) <==>
      ((e.Claimed? && e.id == id) ||
       (Outstanding(trace, id) && e != Crashed && !((e.Retried? || e.Archived?) && e.id == id)))
    ensures FirstIdentity(trace + [e], id) ==
      if FirstIdentity(trace, id).None? && e.Accepted? && e.identity.id == id then Some(e.identity)
      else FirstIdentity(trace, id)
    ensures EverArchived(trace + [e], id) <==> e == Archived(id) || EverArchived(trace, id)
    ensures Latest(trace + [e], id) ==
      if (e.Accepted? || e.Redelivered?) && e.identity.id == id then Some(e.body) else Latest(trace, id)
    ensures CrashFree(trace + [e]) <==> e != Crashed && CrashFree(trace)
  {
    var trace' := trace + [e];
    assert trace'[..|trace'| - 1] == trace && trace'[|trace'| - 1] == e;
  }

  lemma DeliveredExtends(trace: seq<Event>, e: Event, id: Id, body: Body)
    ensures Delivered(trace + [e], id, body) <==>
      ((e.Accepted? || e.Redelivered?) && e.identity.id == id && e.body == body) || Delivered(trace, id, body)
  {
    var trace' := trace + [e];
    assert trace'[..|trace'| - 1] == trace && trace'[|trace'| - 1] == e;
  }

  /** A record keeps agreeing with its history unless the step is about that very job. */
  lemma RecordStep(trace: seq<Event>, e: Event, id: Id, r: Record)
    requires RecordAgrees(trace, id, r)
    ensures RecordAgrees(trace + [e], id,
                         if e.Claimed? && e.id == id then r.(attempts := r.attempts + 1) else r)
  {
    hide Claims, Delivered, FirstIdentity;
    Extended(trace, e, id);
    DeliveredExtends(trace, e, id, r.body);
    if r.parked.Some? {
      DeliveredExtends(trace, e, id, r.parked.value);
    }
  }

  /** The record after a step that concerns its job. */
  lemma JobRecordStep(base: nat, trace: seq<Event>, s: State, e: Event, t: State, id: Id)
    requires Step(base, s, e, t)
    requires id in s.jobs && RecordAgrees(trace, id, s.jobs[id])
    ensures id in t.jobs ==> RecordAgrees(trace + [e], id, t.jobs[id])
    ensures id !in t.jobs ==> id in t.archive && RecordAgrees(trace + [e], id, t.archive[id])
  {
    hide Claims, Delivered, FirstIdentity, RetryDelay;
    RecordStep(trace, e, id, s.jobs[id]);
    if e.Accepted? || e.Redelivered? {
      DeliveredExtends(trace, e, id, e.body);
    }
  }

  lemma AgreesStep(base: nat, trace: seq<Event>, s: State, e: Event, t: State, id: Id)
    requires Agrees(trace, s, id)
    requires Step(base, s, e, t)
    ensures Agrees(trace + [e], t, id)
  {
    hide RetryDelay, RecordAgrees, Claims, Outstanding, FirstIdentity, EverArchived;
    Extended(trace, e, id);
    if id in s.jobs {
      JobRecordStep(base, trace, s, e, t, id);
    } else if id in s.archive {
      RecordStep(trace, e, id, s.archive[id]);
    } else if e.Accepted? && e.identity.id == id {
      FreshAgrees(trace, e);
    }
  }

  lemma FreshAgrees(trace: seq<Event>, e: Event)
    requires e.Accepted? && FirstIdentity(trace, e.identity.id).None? && Claims(trace, e.identity.id) == 0
    ensures RecordAgrees(trace + [e], e.identity.id, Fresh(e.identity, e.body, e.now))
  {
    hide Claims, Delivered, FirstIdentity;
    Extended(trace, e, e.identity.id);
    DeliveredExtends(trace, e, e.identity.id, e.body);
  }

  /** The invariant holds after every prefix of every run, for every job. */
  lemma {:induction false} RunAgrees(base: nat, trace: seq<Event>, states: seq<State>, n: nat, id: Id)
    requires Run(base, trace, states) && n <= |trace|
    ensures Agrees(trace[..n], states[n], id)
  {
    hide Step, Agrees;
    if n == 0 {
      EmptyAgrees(id);
      assert trace[..0] == [];
    } else {
      RunAgrees(base, trace, states, n - 1, id);
      AgreesStep(base, trace[..n - 1], states[n - 1], trace[n - 1], states[n], id);
      assert trace[..n - 1] + [trace[n - 1]] == trace[..n];
    }
  }

  lemma EmptyAgrees(id: Id)
    ensures Agrees([], EMPTY, id)
  {
  }

  // ---------------------------------------------------------------- main results

  /**
   Along every run, with crashes and recoveries anywhere: an accepted job is in the queue or the
   archive, under the identity it was accepted with, and its attempts count its claims.
   */
  lemma AcceptedNeverLost(base: nat, trace: seq<Event>, states: seq<State>, n: nat, m: nat)
    requires Run(base, trace, states) && n < m <= |trace| && trace[n].Accepted?
    ensures var id, s := trace[n].identity.id, states[m];
      && (id in s.jobs || id in s.archive)
      && var r := if id in s.jobs then s.jobs[id] else s.archive[id];
      && r.identity == trace[n].identity
      && r.attempts == Claims(trace[..m], id)
  {
    hide Step;
    var id := trace[n].identity.id;
    RunAgrees(base, trace, states, n, id);
    RunAgrees(base, trace, states, n + 1, id);
    RunAgrees(base, trace, states, m, id);
    assert trace[..n + 1][..n] == trace[..n];
    NewlyAccepted(base, trace, states, n);
    FirstIdentityStays(trace, n + 1, m, id);
  }

  lemma NewlyAccepted(base: nat, trace: seq<Event>, states: seq<State>, n: nat)
    requires Run(base, trace, states) && n < |trace| && trace[n].Accepted?
    ensures trace[n].identity.id !in states[n].jobs && trace[n].identity.id !in states[n].archive
  {
    assert Step(base, states[n], trace[n], states[n + 1]);
  }

  lemma {:induction false} FirstIdentityStays(trace: seq<Event>, k: nat, m: nat, id: Id)
    requires k <= m <= |trace| && FirstIdentity(trace[..k], id).Some?
    ensures FirstIdentity(trace[..m], id) == FirstIdentity(trace[..k], id)
    decreases m
  {
    if k < m {
      FirstIdentityStays(trace, k, m - 1, id);
      assert trace[..m][..m - 1] == trace[..m - 1];
    }
  }

  lemma {:induction false} ArchivedStays(trace: seq<Event>, n: nat, m: nat, id: Id)
    requires n < m <= |trace| && trace[n] == Archived(id)
    ensures EverArchived(trace[..m], id)
    decreases m
  {
    assert trace[..m][..m - 1] == trace[..m - 1];
    if n < m - 1 {
      ArchivedStays(trace, n, m - 1, id);
    }
  }

  /** A job that has reached the archive is never claimed again. */
  lemma ArchivedNeverClaimed(base: nat, trace: seq<Event>, states: seq<State>, n: nat, m: nat)
    requires Run(base, trace, states) && n < m < |trace|
    requires trace[n].Archived? && trace[m].Claimed?
    ensures trace[n].id != trace[m].id
  {
    hide Step, RecordAgrees;
    var id := trace[n].id;
    ArchivedStays(trace, n, m, id);
    RunAgrees(base, trace, states, m, id);
    ClaimFacts(base, trace, states, m);
  }

  lemma ClaimFacts(base: nat, trace: seq<Event>, states: seq<State>, m: nat)
    requires Run(base, trace, states) && m < |trace| && trace[m].Claimed?
    ensures var s, id := states[m], trace[m].id;
      && s.up && id in s.jobs && Eligible(s.jobs[id], trace[m].now)
      && trace[m].body == s.jobs[id].body && trace[m].attempts == s.jobs[id].attempts + 1
  {
    assert Step(base, states[m], trace[m], states[m + 1]);
  }

  /** No job is claimed while an earlier claim of it is outstanding. */
  lemma OneClaimAtATime(base: nat, trace: seq<Event>, states: seq<State>, m: nat)
    requires Run(base, trace, states) && m < |trace| && trace[m].Claimed?
    ensures !Outstanding(trace[..m], trace[m].id)
    ensures trace[m].attempts == Claims(trace[..m + 1], trace[m].id)
  {
    hide Step;
    var id := trace[m].id;
    RunAgrees(base, trace, states, m, id);
    ClaimFacts(base, trace, states, m);
    assert trace[..m + 1][..m] == trace[..m];
  }

  /** Every claim hands out a body that was delivered for that very job. */
  lemma ClaimsDeliverOwnBodies(base: nat, trace: seq<Event>, states: seq<State>, m: nat)
    requires Run(base, trace, states) && m < |trace| && trace[m].Claimed?
    ensures Delivered(trace[..m], trace[m].id, trace[m].body)
  {
    hide Step;
    RunAgrees(base, trace, states, m, trace[m].id);
    ClaimFacts(base, trace, states, m);
  }

  /** A job is archived only while it runs, that is, after a claim no crash has ended. */
  lemma ArchivedWasRunning(base: nat, trace: seq<Event>, states: seq<State>, m: nat)
    requires Run(base, trace, states) && m < |trace| && trace[m].Archived?
    ensures Claims(trace[..m], trace[m].id) >= 1
  {
    hide Step;
    var id := trace[m].id;
    RunAgrees(base, trace, states, m, id);
    RunningClaimed(base, trace, states, m, id);
    ArchiveFacts(base, trace, states, m);
  }

  lemma ArchiveFacts(base: nat, trace: seq<Event>, states: seq<State>, m: nat)
    requires Run(base, trace, states) && m < |trace| && trace[m].Archived?
    ensures trace[m].id in states[m].jobs && states[m].jobs[trace[m].id].status == Running
  {
    assert Step(base, states[m], trace[m], states[m + 1]);
  }

  lemma {:induction false} RunningClaimed(base: nat, trace: seq<Event>, states: seq<State>, m: nat, id: Id)
    requires Run(base, trace, states) && m <= |trace|
    ensures id in states[m].jobs && states[m].jobs[id].status == Running ==> states[m].jobs[id].attempts >= 1
    decreases m
  {
    hide RetryDelay;
    if m > 0 {
      RunningClaimed(base, trace, states, m - 1, id);
      assert Step(base, states[m - 1], trace[m - 1], states[m]);
    }
  }

  // ---------------------------------------------------------------- which body a claim hands out

  /** Without crashes, the body in place, or the parked one while the job runs, is the latest. */
  ghost predicate LatestInPlace(trace: seq<Event>, s: State, id: Id)
  {
    id in s.jobs ==>
      var r := s.jobs[id];
      && (r.status != Running ==> r.parked.None?)
      && Latest(trace, id) == Some(if r.parked.Some? then r.parked.value else r.body)
  }

  lemma LatestStep(base: nat, trace: seq<Event>, s: State, e: Event, t: State, id: Id)
    requires LatestInPlace(trace, s, id)
    requires Agrees(trace, s, id)
    requires Step(base, s, e, t) && !e.Recovered?
    ensures LatestInPlace(trace + [e], t, id)
  {
    hide RetryDelay, Agrees, Latest;
    Extended(trace, e, id);
    AgreesIdentity(trace, s, id);
  }

  lemma AgreesIdentity(trace: seq<Event>, s: State, id: Id)
    requires Agrees(trace, s, id)
    ensures id in s.jobs ==> s.jobs[id].identity.id == id
  {
  }

  lemma {:induction false} CrashFreeLatest(base: nat, trace: seq<Event>, states: seq<State>, n: nat, id: Id)
    requires Run(base, trace, states) && n <= |trace| && CrashFree(trace[..n])
    ensures LatestInPlace(trace[..n], states[n], id)
    ensures states[n].up || states[n] == EMPTY
    decreases n
  {
    hide LatestInPlace, Agrees, RetryDelay;
    if n == 0 {
      assert LatestInPlace([], EMPTY, id) by { EmptyLatest(id); }
      assert trace[..0] == [];
    } else {
      assert trace[..n][..n - 1] == trace[..n - 1];
      CrashFreeLatest(base, trace, states, n - 1, id);
      RunAgrees(base, trace, states, n - 1, id);
      assert Step(base, states[n - 1], trace[n - 1], states[n]);
      assert !trace[n - 1].Recovered?;
      LatestStep(base, trace[..n - 1], states[n - 1], trace[n - 1], states[n], id);
      assert trace[..n - 1] + [trace[n - 1]] == trace[..n];
    }
  }

  lemma EmptyLatest(id: Id)
    ensures LatestInPlace([], EMPTY, id)
  {
  }

  /** In a run without crashes every claim returns the most recently delivered body. */
  lemma CrashFreeClaimsAreCurrent(base: nat, trace: seq<Event>, states: seq<State>, m: nat)
    requires Run(base, trace, states) && m < |trace| && trace[m].Claimed? && CrashFree(trace[..m])
    ensures Latest(trace[..m], trace[m].id) == Some(trace[m].body)
  {
    hide Step;
    CrashFreeLatest(base, trace, states, m, trace[m].id);
    ClaimFacts(base, trace, states, m);
  }

  predicate Delivers(e: Event, id: Id)
  {
    (e.Accepted? || e.Redelivered?) && e.identity.id == id
  }

  predicate Retries(e: Event, id: Id)
  {
    e.Retried? && e.id == id
  }

  ghost predicate RetriedBetween(trace: seq<Event>, d: nat, m: nat, id: Id)
    requires m <= |trace|
  {
    exists k :: d < k < m && Retries(trace[k], id)
  }

  /** The last delivery for a job, and that its body is the latest. */
  lemma {:induction false} LastDelivery(trace: seq<Event>, m: nat, id: Id) returns (d: nat)
    requires m <= |trace| && Latest(trace[..m], id).Some?
    ensures d < m && Delivers(trace[d], id) && Latest(trace[..m], id) == Some(trace[d].body)
    ensures forall k :: d < k < m ==> !Delivers(trace[k], id)
  {
    assert trace[..m][..m - 1] == trace[..m - 1];
    if Delivers(trace[m - 1], id) {
      d := m - 1;
    } else {
      d := LastDelivery(trace, m - 1, id);
    }
  }

  /** What a record holds after later steps without a delivery: a first failed attempt puts the parked body in place. */
  ghost predicate HeldSince(s: State, id: Id, r: Record, retried: bool)
  {
    id in s.jobs ==>
      if retried then s.jobs[id].parked.None? && s.jobs[id].body == (if r.parked.Some? then r.parked.value else r.body)
      else s.jobs[id].parked == r.parked && s.jobs[id].body == r.body
  }

  lemma HeldStep(base: nat, s: State, e: Event, t: State, id: Id, r: Record, retried: bool)
    requires HeldSince(s, id, r, retried) && Step(base, s, e, t) && !Delivers(e, id)
    requires id in s.jobs ==> s.jobs[id].identity.id == id
    ensures HeldSince(t, id, r, retried || Retries(e, id))
  {
    hide RetryDelay;
  }

  lemma {:induction false} HeldAfter(base: nat, trace: seq<Event>, states: seq<State>, d: nat, m: nat, id: Id)
    requires Run(base, trace, states) && d < m <= |trace| && id in states[d + 1].jobs
    requires forall k :: d < k < m ==> !Delivers(trace[k], id)
    ensures HeldSince(states[m], id, states[d + 1].jobs[id], RetriedBetween(trace, d, m, id))
    decreases m
  {
    hide Step, HeldSince, Delivers, Retries, Agrees;
    var r := states[d + 1].jobs[id];
    if d + 1 == m {
      HeldAtOnce(states[m], id);
    } else {
      HeldAfter(base, trace, states, d, m - 1, id);
      RunAgrees(base, trace, states, m - 1, id);
      AgreesIdentity(trace[..m - 1], states[m - 1], id);
      HeldStep(base, states[m - 1], trace[m - 1], states[m], id, r, RetriedBetween(trace, d, m - 1, id));
    }
  }

  lemma HeldAtOnce(s: State, id: Id)
    requires id in s.jobs
    ensures HeldSince(s, id, s.jobs[id], false)
  {
  }

  /** A delivered body is parked while the job runs, and in place otherwise. */
  lemma DeliveryHeld(base: nat, s: State, e: Event, t: State, id: Id)
    requires Step(base, s, e, t) && Delivers(e, id)
    ensures id in t.jobs
    ensures var r := t.jobs[id]; if r.status == Running then r.parked == Some(e.body) else r.body == e.body
  {
    hide RetryDelay;
  }

  /**
   When a claim hands out the most recently delivered body, in every run with crashes anywhere. If the job was
   running at that delivery: exactly if an attempt has failed since, or the body it ran with is the same. If it was
   not: exactly if no attempt has failed since, or no other body was parked.
   */
  lemma ClaimIsCurrentExactly(base: nat, trace: seq<Event>, states: seq<State>, m: nat) returns (d: nat)
    requires Run(base, trace, states) && m < |trace| && trace[m].Claimed?
    ensures |states| == |trace| + 1
    ensures d < m && Delivers(trace[d], trace[m].id) && forall k :: d < k < m ==> !Delivers(trace[k], trace[m].id)
    ensures trace[m].id in states[d + 1].jobs
    ensures var id, r, b := trace[m].id, states[d + 1].jobs[trace[m].id], trace[d].body;
      Latest(trace[..m], id) == Some(trace[m].body) <==>
        if r.status == Running then RetriedBetween(trace, d, m, id) || r.body == b
        else !RetriedBetween(trace, d, m, id) || r.parked.None? || r.parked.value == b
  {
    hide Step, Latest, Agrees, Delivers, Retries;
    var id := trace[m].id;
    RunAgrees(base, trace, states, m, id);
    ClaimFacts(base, trace, states, m);
    ClaimsDeliverOwnBodies(base, trace, states, m);
    LatestDelivered(trace[..m], id, trace[m].body);
    d := LastDelivery(trace, m, id);
    assert Step(base, states[d], trace[d], states[d + 1]);
    DeliveryHeld(base, states[d], trace[d], states[d + 1], id);
    HeldAfter(base, trace, states, d, m, id);
  }

  lemma {:induction false} LatestDelivered(trace: seq<Event>, id: Id, body: Body)
    requires Delivered(trace, id, body)
    ensures Latest(trace, id).Some?
  {
    if Delivered(trace[..|trace| - 1], id, body) {
      LatestDelivered(trace[..|trace| - 1], id, body);
    }
  }

  // ---------------------------------------------------------------- how long a failed job waits

  /**
   The first failed attempt waits the base delay, every further one twice as long as the one before, up to the ninth,
   and none longer than five minutes.
   */
  lemma WaitsDouble(base: nat, n: nat)
    ensures n <= 1 ==> RetryDelay(base, n) == if base <= 300000 then base else 300000
    ensures 1 <= n < 9 ==>
      RetryDelay(base, n + 1) == if 2 * RetryDelay(base, n) <= 300000 then 2 * RetryDelay(base, n) else 300000
    ensures n >= 9 ==> RetryDelay(base, n) == RetryDelay(base, 9)
  {
    assert Power2(0) == 1;
    if 1 <= n < 9 {
      var p := Power2(n - 1);
      assert Power2(n) == 2 * p;
      assert base * Power2(n) == 2 * (base * p) by {
        assert base * (2 * p) == 2 * (base * p);
      }
    }
  }

  /** The job at `k` was put off, and nothing has happened to it since. */
  ghost predicate PutOff(trace: seq<Event>, k: nat, m: nat, id: Id)
    requires k < m <= |trace|
  {
    && trace[k].Retried? && trace[k].id == id
    && forall j :: k < j < m ==> !Delivers(trace[j], id) && !(trace[j].Claimed? && trace[j].id == id)
  }

  lemma StaysPutOff(base: nat, s: State, e: Event, t: State, id: Id)
    requires Step(base, s, e, t) && id in s.jobs && s.jobs[id].status == Retry
    requires !Delivers(e, id) && !(e.Claimed? && e.id == id) && !(e.Accepted? && e.identity.id == id)
    ensures id in t.jobs && t.jobs[id] == s.jobs[id]
  {
  }

  lemma {:induction false} PutOffRecord(base: nat, trace: seq<Event>, states: seq<State>, k: nat, m: nat, id: Id)
    requires Run(base, trace, states) && k < m <= |trace| && PutOff(trace, k, m, id)
    ensures id in states[m].jobs && states[m].jobs[id].status == Retry
    ensures states[m].jobs[id].nextAttemptAt == trace[k].now + RetryDelay(base, Claims(trace[..k], id))
    decreases m
  {
    hide RetryDelay, Claims, RecordAgrees;
    assert Step(base, states[m - 1], trace[m - 1], states[m]);
    if m == k + 1 {
      RunAgrees(base, trace, states, k, id);
      assert RecordAgrees(trace[..k], id, states[k].jobs[id]);
      AttemptsAreClaims(trace[..k], id, states[k].jobs[id]);
    } else {
      PutOffRecord(base, trace, states, k, m - 1, id);
      StaysPutOff(base, states[m - 1], trace[m - 1], states[m], id);
    }
  }

  lemma AttemptsAreClaims(trace: seq<Event>, id: Id, r: Record)
    requires RecordAgrees(trace, id, r)
    ensures r.attempts == Claims(trace, id)
  {
  }

  /** A job whose attempt failed is not claimed before its wait is over, unless it is delivered again. */
  lemma ClaimedOnlyWhenDue(base: nat, trace: seq<Event>, states: seq<State>, k: nat, m: nat)
    requires Run(base, trace, states) && k < m < |trace| && trace[m].Claimed? && PutOff(trace, k, m, trace[m].id)
    ensures trace[m].now >= trace[k].now + RetryDelay(base, Claims(trace[..k], trace[m].id))
  {
    hide RetryDelay, Claims;
    PutOffRecord(base, trace, states, k, m, trace[m].id);
    assert Step(base, states[m], trace[m], states[m + 1]);
  }

  /** Put off, it can be claimed at exactly the moments from the end of its wait on. */
  lemma DueAfterWait(base: nat, trace: seq<Event>, states: seq<State>, k: nat, m: nat, id: Id, now: int)
    requires Run(base, trace, states) && k < m <= |trace| && PutOff(trace, k, m, id)
    ensures |states| == |trace| + 1 && id in states[m].jobs
    ensures Eligible(states[m].jobs[id], now) <==> now >= trace[k].now + RetryDelay(base, Claims(trace[..k], id))
  {
    hide RetryDelay, Claims;
    PutOffRecord(base, trace, states, k, m, id);
  }

  /** A delivered job that is not running is due at once, and a running one at no time. */
  lemma DueWhenDelivered(base: nat, s: State, e: Event, t: State, id: Id, now: int)
    requires Step(base, s, e, t) && Delivers(e, id)
    ensures id in t.jobs
    ensures Eligible(t.jobs[id], now) <==> !(id in s.jobs && s.jobs[id].status == Running) && now >= e.now
  {
  }

  function Only(r: Record, up: bool): State
  {
    State(map[r.identity.id := r], map[], up)
  }

  /** Accept, claim, deliver a second body while the job runs, crash, recover. */
  lemma ParkedRun(base: nat, identity: Identity, first: Body, second: Body) returns (trace: seq<Event>, states: seq<State>)
    ensures Run(base, trace, states) && |states| == |trace| + 1
    ensures states[|trace|] == Only(Record(identity, first, Some(second), Pending, 1, 0), true)
  {
    var id := identity.id;
    var r0 := Fresh(identity, first, 0);
    var r1 := Claim(r0);
    var r2 := r1.(parked := Some(second));
    var r3 := r2.(status := Pending);
    trace, states := [], [EMPTY];
    trace, states := Extend(base, trace, states, Ready, State(map[], map[], true));
    trace, states := Extend(base, trace, states, Accepted(identity, first, 0), Only(r0, true));
    trace, states := Extend(base, trace, states, Claimed(id, first, 1, 0), Only(r1, true));
    trace, states := Extend(base, trace, states, Redelivered(identity, second, 0), Only(r2, true));
    trace, states := Extend(base, trace, states, Crashed, Only(r2, false));
    trace, states := Extend(base, trace, states, Recovered(id), Only(r3, false));
    trace, states := Extend(base, trace, states, Ready, Only(r3, true));
  }

  lemma Extend(base: nat, trace: seq<Event>, states: seq<State>, e: Event, t: State)
    returns (trace': seq<Event>, states': seq<State>)
    requires Run(base, trace, states) && |states| == |trace| + 1 && Step(base, states[|trace|], e, t)
    ensures trace' == trace + [e] && states' == states + [t] && Run(base, trace', states')
    ensures states'[|trace'|] == t
  {
    RunExtends(base, trace, states, e, t);
    trace', states' := trace + [e], states + [t];
  }

  lemma ThirdDelivered(base: nat, identity: Identity, first: Body, second: Body, third: Body)
    returns (trace: seq<Event>, states: seq<State>)
    ensures Run(base, trace, states) && |states| == |trace| + 1
    ensures states[|trace|] == Only(Claim(Record(identity, third, Some(second), Pending, 1, 0)), true)
    ensures Latest(trace, identity.id) == Some(third)
  {
    hide Run, RetryDelay, Latest;
    var id := identity.id;
    var r := Record(identity, third, Some(second), Pending, 1, 0);
    trace, states := ParkedRun(base, identity, first, second);
    Extended(trace, Redelivered(identity, third, 0), id);
    trace, states := Extend(base, trace, states, Redelivered(identity, third, 0), Only(r, true));
    Extended(trace, Claimed(id, third, 2, 0), id);
    trace, states := Extend(base, trace, states, Claimed(id, third, 2, 0), Only(Claim(r), true));
  }

  /**
   The parked body of a crashed attempt outlives recovery: a body delivered after it is replaced by
   the older, parked one as soon as the next attempt fails, whatever the delay before the retry.
   */
  lemma StaleBodyComesBack(base: nat, identity: Identity, first: Body, second: Body, third: Body)
    returns (trace: seq<Event>, states: seq<State>)
    ensures trace != [] && Run(base, trace, states)
    ensures var last := |trace| - 1;
      && trace[last].Claimed? && trace[last].id == identity.id && trace[last].body == second
      && Latest(trace[..last], identity.id) == Some(third)
  {
    hide Run, RetryDelay, Latest;
    var id := identity.id;
    var due := RetryDelay(base, 2);
    var r := Record(identity, second, None, Retry, 2, due);
    trace, states := ThirdDelivered(base, identity, first, second, third);
    Extended(trace, Retried(id, 0), id);
    trace, states := Extend(base, trace, states, Retried(id, 0), Only(r, true));
    var before := trace;
    trace, states := Extend(base, trace, states, Claimed(id, second, 3, due), Only(Claim(r), true));
    assert trace[..|trace| - 1] == before;
  }
}
