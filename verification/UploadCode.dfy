/** `CompilerWorker.run` as the sequence of calls it makes, over a network that others use as well. */
module UploadCode {
  import opened Upload
  import opened Options

  class Network {
    const w: World
    var state: State
    ghost var trace: seq<Event>
    ghost var states: seq<State>

    ghost predicate Valid()
      reads this
    {
      Run(w, trace, states) && |states| == |trace| + 1 && states[|trace|] == state
    }

    constructor (w: World)
      ensures Valid() && this.w == w && trace == []
    {
      this.w, state := w, EMPTY;
      trace, states := [], [EMPTY];
    }

    method Act(e: Event)
      requires Valid() && Next(w, state, e).Some?
      modifies this
      ensures Valid() && trace == old(trace) + [e] && Next(w, old(state), e) == Some(state)
    {
      hide Next;
      var next := Next(w, state, e).value;
      RunExtends(w, trace, states, e, next);
      state := next;
      trace, states := trace + [e], states + [next];
    }

    /** Whatever other attempts do, and whatever the attempt's own requests do after it has sent them. */
    method Others(a: Attempt)
      requires Valid() && a in state.attempts
      modifies this
      ensures Valid() && old(trace) <= trace
      ensures a in state.attempts && state.attempts[a] == old(state).attempts[a]
    {
      hide Run, Advance;
      var steps :| steps >= 0;
      for i := 0 to steps
        invariant Valid() && old(trace) <= trace
        invariant a in state.attempts && state.attempts[a] == old(state).attempts[a]
      {
        var e: Event := *;
        if (e.a != a || e.Bind? || e.Land?) && Next(w, state, e).Some? {
          ServerSide(w, state, e, a);
          Act(e);
        }
      }
    }

    method GetGrants(a: Attempt) returns (ok: bool)
      requires Valid() && a in state.attempts && state.attempts[a].phase == Started
      modifies this
      ensures Valid() && old(trace) <= trace && a in state.attempts && state.attempts[a].job == old(state).attempts[a].job
      ensures state.attempts[a].phase == if ok then Granted else Failing
    {
      hide Run;
      ok := *;
      Act(if ok then GrantsRefreshed(a) else GrantsRefused(a));
    }

    /** Download, bundle validation and build, any of which may throw. */
    method Build(a: Attempt) returns (ok: bool)
      requires Valid() && a in state.attempts && state.attempts[a].phase == Granted
      modifies this
      ensures Valid() && old(trace) <= trace && a in state.attempts && state.attempts[a].job == old(state).attempts[a].job
      ensures state.attempts[a].phase == if ok then Ready else Failing
    {
      hide Run;
      ok := *;
      Act(if ok then BuildDone(a) else BuildFailed(a));
    }

    /** `prepareUpload`: the answer says whether the control plane had this upload already. */
    method PrepareUpload(a: Attempt) returns (existing: Option<bool>)
      requires Valid() && a in state.attempts && state.attempts[a].phase == Ready
      modifies this
      ensures Valid() && old(trace) <= trace && a in state.attempts && state.attempts[a].job == old(state).attempts[a].job
      ensures state.attempts[a].phase ==
        match existing
        case None => Ended(UploadUncertain, false)
        case Some(there) => if there then Checking(false) else Putting
    {
      hide Run;
      Act(Ask(a));
      Others(a);
      var lost: bool := *;
      if lost || state.attempts[a].job.deployment !in state.bound {
        Act(NoAnswer(a));
        return None;
      }
      var there: bool := *;
      Act(Answer(a, there));
      if state.attempts[a].phase.Ended? {
        return None;
      }
      return Some(there);
    }

    /** `uploadExact`: an error says nothing about whether the object was created. */
    method UploadExact(a: Attempt) returns (ok: bool)
      requires Valid() && a in state.attempts && state.attempts[a].phase == Putting
      modifies this
      ensures Valid() && old(trace) <= trace && a in state.attempts && state.attempts[a].job == old(state).attempts[a].job
      ensures state.attempts[a].phase == if ok then Stored else Checking(true)
    {
      hide Run;
      Others(a);
      var key := state.attempts[a].job.key;
      var heard: bool := *;
      ok := heard && key in state.store && state.store[key].creator == a;
      Act(if ok then PutAcked(a) else PutFailed(a));
    }

    /** `reconcileExactUpload`: compares the stored object with what the control plane has bound. */
    method Reconcile(a: Attempt) returns (ok: bool)
      requires Valid() && a in state.attempts && state.attempts[a].phase.Checking?
      modifies this
      ensures Valid() && old(trace) <= trace && a in state.attempts && state.attempts[a].job == old(state).attempts[a].job
      ensures state.attempts[a].phase ==
        if ok then Stored else if old(state).attempts[a].phase.last then Ended(UploadUncertain, false) else Putting
    {
      hide Run;
      Others(a);
      var job := state.attempts[a].job;
      var heard: bool := *;
      ok := heard && Binding(state, job).Some? && Stands(w, state.store, Binding(state, job).value);
      Act(if ok then Confirmed(a) else Unconfirmed(a));
    }

    method PublishCallback(a: Attempt) returns (ok: bool)
      requires Valid() && a in state.attempts && state.attempts[a].phase == Stored
      modifies this
      ensures Valid() && old(trace) <= trace && a in state.attempts && state.attempts[a].job == old(state).attempts[a].job
      ensures state.attempts[a].phase == if ok then Ended(Published, true) else Ended(CallbackUncertain, false)
    {
      hide Run;
      Act(Publish(a));
      Others(a);
      ok := *;
      Act(if ok then PublishAcked(a) else PublishLost(a));
    }

    /** `failed`: refused unless the grants were refreshed, and a lost answer is not retried. */
    method FailureCallback(a: Attempt) returns (ok: bool)
      requires Valid() && a in state.attempts && state.attempts[a].phase == Failing
      modifies this
      ensures Valid() && old(trace) <= trace && a in state.attempts && state.attempts[a].job == old(state).attempts[a].job
      ensures state.attempts[a].phase == Ended(JobFailed, ok)
    {
      hide Run;
      Others(a);
      var heard: bool := *;
      ok := heard && state.attempts[a].refreshed;
      Act(if ok then FailureAcked(a) else FailureLost(a));
    }

    /** The upload part of `run`: after it, the object is known to be right, or the attempt has given up. */
    method EnsureStored(a: Attempt, existing: bool) returns (ok: bool)
      requires Valid() && a in state.attempts
      requires state.attempts[a].phase == if existing then Checking(false) else Putting
      modifies this
      ensures Valid() && old(trace) <= trace && a in state.attempts && state.attempts[a].job == old(state).attempts[a].job
      ensures state.attempts[a].phase == if ok then Stored else Ended(UploadUncertain, false)
    {
      hide Run;
      ok := false;
      if existing {
        ok := Reconcile(a);
      }
      if !ok {
        ok := UploadExact(a);
        if !ok {
          ok := Reconcile(a);
        }
      }
    }

    /** `run`. */
    method Attempt(a: Attempt, job: Job) returns (status: Status, delivered: bool)
      requires Valid() && a !in state.attempts
      modifies this
      ensures Valid() && old(trace) <= trace
      ensures a in state.attempts && state.attempts[a].job == job && state.attempts[a].phase == Ended(status, delivered)
      ensures delivered ==> Acknowledged(trace, a, status)
      ensures Reproducible(w) && (status == Published || status == CallbackUncertain) ==>
        Publish(a) in trace && job.deployment in state.bound && Stands(w, state.store, state.bound[job.deployment])
    {
      hide Run, Advance;
      Act(Begin(a, job));
      var ok := GetGrants(a);
      if ok {
        ok := Build(a);
      }
      if !ok {
        delivered := FailureCallback(a);
        status := JobFailed;
      } else {
        var existing := PrepareUpload(a);
        if existing.None? {
          status, delivered := UploadUncertain, false;
        } else {
          ok := EnsureStored(a, existing.value);
          if !ok {
            status, delivered := UploadUncertain, false;
          } else {
            delivered := PublishCallback(a);
            status := if delivered then Published else CallbackUncertain;
          }
        }
      }
      Believed(w, trace, states, a);
      if status == Published || status == CallbackUncertain {
        PublishedTrace(w, trace, states, |trace|, a);
        if Reproducible(w) {
          PublishedStands(w, trace, states, a);
        }
      }
    }
  }

  lemma ServerSide(w: World, s: State, e: Event, a: Attempt)
    requires a in s.attempts && (e.a != a || e.Bind? || e.Land?) && Next(w, s, e).Some?
    ensures var t := Next(w, s, e).value; a in t.attempts && t.attempts[a] == s.attempts[a]
  {
    NextKeeps(w, s, e);
  }

  lemma Believed(w: World, trace: seq<Event>, states: seq<State>, a: Attempt)
    requires Run(w, trace, states)
    ensures GateSound(trace, states[|trace|], a)
  {
    RunGate(w, trace, states, |trace|, a);
    assert trace[..|trace|] == trace;
  }

  predicate PastPublish(phase: Phase)
  {
    phase.Publishing? || (phase.Ended? && (phase.status == Published || phase.status == CallbackUncertain))
  }

  /** Only a publish call leads past publishing. */
  lemma {:induction false} PublishedTrace(w: World, trace: seq<Event>, states: seq<State>, n: nat, a: Attempt)
    requires Run(w, trace, states) && n <= |trace|
    requires a in states[n].attempts && PastPublish(states[n].attempts[a].phase)
    ensures exists k :: 0 <= k < n && trace[k] == Publish(a)
    decreases n
  {
    if n > 0 {
      var s, e := states[n - 1], trace[n - 1];
      assert Next(w, s, e) == Some(states[n - 1 + 1]);
      if e != Publish(a) {
        NextKeeps(w, s, e);
        PublishedTrace(w, trace, states, n - 1, a);
      }
    }
  }

  lemma PublishedStands(w: World, trace: seq<Event>, states: seq<State>, a: Attempt)
    requires Reproducible(w) && Run(w, trace, states)
    requires a in states[|trace|].attempts && PastPublish(states[|trace|].attempts[a].phase)
    ensures var s := states[|trace|]; var job := s.attempts[a].job;
      job.deployment in s.bound && Stands(w, s.store, s.bound[job.deployment])
  {
    hide Next, Reproducible;
    PublishedTrace(w, trace, states, |trace|, a);
    var k :| 0 <= k < |trace| && trace[k] == Publish(a);
    PublishSafe(w, trace, states);
    assert PublishStands(w, states, a, k, |trace|);
    JobsStay(w, trace, states, k, |trace|, a);
  }

  lemma {:induction false} JobsStay(w: World, trace: seq<Event>, states: seq<State>, n: nat, m: nat, a: Attempt)
    requires Run(w, trace, states) && n <= m <= |trace| && a in states[n].attempts
    ensures a in states[m].attempts && states[m].attempts[a].job == states[n].attempts[a].job
    ensures forall d :: d in states[n].bound ==> d in states[m].bound && states[m].bound[d] == states[n].bound[d]
    decreases m
  {
    hide Next;
    if n < m {
      JobsStay(w, trace, states, n, m - 1, a);
      assert Next(w, states[m - 1], trace[m - 1]) == Some(states[m - 1 + 1]);
      NextKeeps(w, states[m - 1], trace[m - 1]);
    }
  }
}
