/**
 The compiler worker's protocol over a lossy network: fetch grants, build, have the control plane bind
 the output, put it into a create-only store, reconcile, publish. Any number of attempts run side by
 side, any of them may stop anywhere, and a request that was sent may take effect at any later time.
 */
module Upload {
  import opened Bytes
  import opened Options

  type Attempt = nat

  datatype Job = Job(request: string, deployment: string, manifest: string, key: string)
  datatype Built = Built(archive: Bytes, logicalSize: nat, paths: seq<string>)
  datatype Publication = Publication(
    deployment: string, manifest: string, key: string, sha256: nat, compressedSize: int, logicalSize: int,
    paths: seq<string>)

  /** The hash function, and the build, which may differ from attempt to attempt. */
  datatype World = World(sha256: Bytes -> nat, build: (Attempt, Job) -> Built)

  /** `publicationForControlPlane`. */
  function Describe(w: World, job: Job, built: Built): Publication
  {
    Publication(job.deployment, job.manifest, job.key, w.sha256(built.archive), |built.archive|, built.logicalSize,
                built.paths)
  }

  /** `verifyPreparedUpload`. */
  predicate ValidPreparation(p: Publication, job: Job)
  {
    && p.deployment == job.deployment && p.manifest == job.manifest && p.key == job.key
    && p.compressedSize >= 1 && p.logicalSize >= 1
  }

  datatype Status = Published | CallbackUncertain | UploadUncertain | JobFailed

  /** How far one attempt at `run` has come. */
  datatype Phase =
    | Started
    | Granted
    | Failing
    | Ready
    | Asked
    | Putting
    | Checking(last: bool)
    | Stored
    | Publishing
    | Ended(status: Status, delivered: bool)

  datatype Progress = Progress(job: Job, refreshed: bool, phase: Phase)

  datatype Object = Object(data: Bytes, creator: Attempt)

  datatype State = State(
    store: map<string, Object>,
    bound: map<string, Publication>,
    asked: set<Attempt>,
    sent: set<Attempt>,
    attempts: map<Attempt, Progress>)

  const EMPTY := State(map[], map[], {}, {}, map[])

  datatype Event =
    | Begin(a: Attempt, job: Job)
    | GrantsRefreshed(a: Attempt)
    | GrantsRefused(a: Attempt)
    | BuildFailed(a: Attempt)
    | BuildDone(a: Attempt)
    | Ask(a: Attempt)
    | Bind(a: Attempt)
    | Answer(a: Attempt, existing: bool)
    | NoAnswer(a: Attempt)
    | Land(a: Attempt)
    | PutAcked(a: Attempt)
    | PutFailed(a: Attempt)
    | Confirmed(a: Attempt)
    | Unconfirmed(a: Attempt)
    | Publish(a: Attempt)
    | PublishAcked(a: Attempt)
    | PublishLost(a: Attempt)
    | FailureAcked(a: Attempt)
    | FailureLost(a: Attempt)

  /** The object under a publication's key has exactly the published length and digest. */
  predicate Stands(w: World, store: map<string, Object>, p: Publication)
  {
    p.key in store && |store[p.key].data| == p.compressedSize && w.sha256(store[p.key].data) == p.sha256
  }

  /** What the deployment of a job is bound to. */
  function Binding(s: State, job: Job): Option<Publication>
  {
    if job.deployment in s.bound then Some(s.bound[job.deployment]) else None
  }

  /** The phase an attempt enters by an event of its own, or `None` where that cannot happen. */
  function Advance(w: World, s: State, p: Progress, e: Event): (r: Option<Phase>)
  {
    match e
    case Begin(_, _) => None
    case GrantsRefreshed(_) => if p.phase == Started then Some(Granted) else None
    case GrantsRefused(_) => if p.phase == Started then Some(Failing) else None
    case BuildFailed(_) => if p.phase == Granted then Some(Failing) else None
    case BuildDone(_) => if p.phase == Granted then Some(Ready) else None
    case Ask(_) => if p.phase == Ready then Some(Asked) else None
    case Bind(a) => if a in s.asked then Some(p.phase) else None
    case Answer(_, existing) =>
      if p.phase != Asked || Binding(s, p.job).None? then None
      else if !ValidPreparation(Binding(s, p.job).value, p.job) then Some(Ended(UploadUncertain, false))
      else Some(if existing then Checking(false) else Putting)
    case NoAnswer(_) => if p.phase == Asked then Some(Ended(UploadUncertain, false)) else None
    case Land(a) => if a in s.sent && p.job.key !in s.store then Some(p.phase) else None
    case PutAcked(a) =>
      if p.phase == Putting && p.job.key in s.store && s.store[p.job.key].creator == a then Some(Stored) else None
    case PutFailed(_) => if p.phase == Putting then Some(Checking(true)) else None
    case Confirmed(_) =>
      if p.phase.Checking? && Binding(s, p.job).Some? && Stands(w, s.store, Binding(s, p.job).value) then Some(Stored)
      else None
    case Unconfirmed(_) =>
      if !p.phase.Checking? then None else Some(if p.phase.last then Ended(UploadUncertain, false) else Putting)
    case Publish(_) => if p.phase == Stored then Some(Publishing) else None
    case PublishAcked(_) => if p.phase == Publishing then Some(Ended(Published, true)) else None
    case PublishLost(_) => if p.phase == Publishing then Some(Ended(CallbackUncertain, false)) else None
    case FailureAcked(_) => if p.phase == Failing && p.refreshed then Some(Ended(JobFailed, true)) else None
    case FailureLost(_) => if p.phase == Failing then Some(Ended(JobFailed, false)) else None
  }

  /** `If-None-Match: *`: only the first PUT of a key to arrive creates its object. */
  function Landed(w: World, store: map<string, Object>, a: Attempt, job: Job): map<string, Object>
  {
    if job.key in store then store else store[job.key := Object(w.build(a, job).archive, a)]
  }

  /** The control plane keeps the first payload it is given for a deployment. */
  function Bound(w: World, bound: map<string, Publication>, a: Attempt, job: Job): map<string, Publication>
  {
    if job.deployment in bound then bound else bound[job.deployment := Describe(w, job, w.build(a, job))]
  }

  /** What an event does, or `None` where it cannot happen. */
  function Next(w: World, s: State, e: Event): (r: Option<State>)
  {
    if e.Begin? then
      if e.a in s.attempts then None else Some(s.(attempts := s.attempts[e.a := Progress(e.job, false, Started)]))
    else if e.a !in s.attempts then None
    else
      var p := s.attempts[e.a];
      match Advance(w, s, p, e)
      case None => None
      case Some(phase) =>
        Some(State(
          if e.Land? then Landed(w, s.store, e.a, p.job) else s.store,
          if e.Bind? then Bound(w, s.bound, e.a, p.job) else s.bound,
          if e.Ask? then s.asked + {e.a} else s.asked,
          if phase == Putting then s.sent + {e.a} else s.sent,
          s.attempts[e.a := Progress(p.job, p.refreshed || e.GrantsRefreshed?, phase)]))
  }

  ghost predicate Run(w: World, trace: seq<Event>, states: seq<State>)
  {
    && |states| == |trace| + 1
    && states[0] == EMPTY
    && forall i :: 0 <= i < |trace| ==> Next(w, states[i], trace[i]) == Some(states[i + 1])
  }

  lemma RunExtends(w: World, trace: seq<Event>, states: seq<State>, e: Event, t: State)
    requires Run(w, trace, states) && Next(w, states[|trace|], e) == Some(t)
    ensures Run(w, trace + [e], states + [t])
  {
    hide Next;
    var trace', states' := trace + [e], states + [t];
    forall i | 0 <= i < |trace'| ensures Next(w, states'[i], trace'[i]) == Some(states'[i + 1]) {
      if i < |trace| {
        assert states'[i] == states[i] && states'[i + 1] == states[i + 1] && trace'[i] == trace[i];
      }
    }
  }

  // ---------------------------------------------------------------- the store and the bindings

  /** Objects and bindings, once there, never change. */
  lemma NextKeeps(w: World, s: State, e: Event)
    requires Next(w, s, e).Some?
    ensures var t := Next(w, s, e).value;
      && (forall k :: k in s.store ==> k in t.store && t.store[k] == s.store[k])
      && (forall d :: d in s.bound ==> d in t.bound && t.bound[d] == s.bound[d])
      && (forall a :: a in s.attempts ==> a in t.attempts && t.attempts[a].job == s.attempts[a].job)
      && (forall a :: a in t.attempts && a != e.a ==> a in s.attempts && t.attempts[a] == s.attempts[a])
  {
    hide Advance, Describe;
  }

  lemma {:induction false} RunKeeps(w: World, trace: seq<Event>, states: seq<State>, n: nat, m: nat, key: string)
    requires Run(w, trace, states) && n <= m <= |trace| && key in states[n].store
    ensures key in states[m].store && states[m].store[key] == states[n].store[key]
    decreases m
  {
    hide Next;
    if n < m {
      RunKeeps(w, trace, states, n, m - 1, key);
      assert Next(w, states[m - 1], trace[m - 1]) == Some(states[m - 1 + 1]);
      NextKeeps(w, states[m - 1], trace[m - 1]);
    }
  }

  // ---------------------------------------------------------------- publishing names what is stored

  predicate SameTarget(a: Job, b: Job)
  {
    a.deployment == b.deployment && a.manifest == b.manifest && a.key == b.key
  }

  predicate SameBytes(w: World, a: Built, b: Built)
  {
    |a.archive| == |b.archive| && w.sha256(a.archive) == w.sha256(b.archive)
  }

  /** The builder is a function of what it is asked to build, as far as length and digest can tell. */
  ghost predicate Reproducible(w: World)
  {
    forall a, b, job, other :: SameTarget(job, other) ==> SameBytes(w, w.build(a, job), w.build(b, other))
  }

  /** A binding describes what some attempt at its deployment built. */
  ghost predicate BoundByAttempt(w: World, d: string, p: Publication)
  {
    exists a: Attempt, job: Job :: job.deployment == d && p == Describe(w, job, w.build(a, job))
  }

  ghost predicate Sound(w: World, s: State)
  {
    && (forall d :: d in s.bound ==> BoundByAttempt(w, d, s.bound[d]))
    && (forall k :: k in s.store ==> ObjectSound(w, s, k))
    && (forall a :: a in s.attempts ==> AttemptSound(w, s, a))
  }

  ghost predicate ObjectSound(w: World, s: State, k: string)
    requires k in s.store
  {
    var o := s.store[k];
    o.creator in s.attempts && s.attempts[o.creator].job.key == k &&
    o.data == w.build(o.creator, s.attempts[o.creator].job).archive
  }

  ghost predicate AttemptSound(w: World, s: State, a: Attempt)
    requires a in s.attempts
  {
    var p := s.attempts[a];
    && (Answered(p.phase) ==> p.job.deployment in s.bound && ValidPreparation(s.bound[p.job.deployment], p.job))
    && (Settled(p.phase) ==> p.job.deployment in s.bound && Stands(w, s.store, s.bound[p.job.deployment]))
  }

  predicate Settled(phase: Phase)
  {
    phase.Stored? || phase.Publishing?
  }

  predicate Answered(phase: Phase)
  {
    phase.Putting? || phase.Checking? || Settled(phase)
  }

  /** An object put by an attempt matches whatever its deployment is bound to. */
  lemma OwnObjectStands(w: World, s: State, a: Attempt)
    requires Reproducible(w) && Sound(w, s) && a in s.attempts
    requires var p := s.attempts[a];
      && p.job.key in s.store && s.store[p.job.key].creator == a
      && p.job.deployment in s.bound && ValidPreparation(s.bound[p.job.deployment], p.job)
    ensures Stands(w, s.store, s.bound[s.attempts[a].job.deployment])
  {
    var job := s.attempts[a].job;
    var p := s.bound[job.deployment];
    assert BoundByAttempt(w, job.deployment, p);
    var b: Attempt, other: Job :| other.deployment == job.deployment && p == Describe(w, other, w.build(b, other));
    assert SameTarget(job, other);
    assert ObjectSound(w, s, job.key);
    assert SameBytes(w, w.build(a, job), w.build(b, other));
  }

  /** What holds of an attempt keeps holding while others act. */
  lemma OthersKeep(w: World, s: State, e: Event, a: Attempt)
    requires Next(w, s, e).Some? && a in s.attempts && AttemptSound(w, s, a) && a != e.a
    ensures a in Next(w, s, e).value.attempts && AttemptSound(w, Next(w, s, e).value, a)
  {
    hide Next;
    NextKeeps(w, s, e);
  }

  lemma AttemptSoundKept(w: World, s: State, e: Event)
    requires Reproducible(w) && Sound(w, s) && Next(w, s, e).Some? && e.a in Next(w, s, e).value.attempts
    ensures AttemptSound(w, Next(w, s, e).value, e.a)
  {
    hide Reproducible, BoundByAttempt, ObjectSound, Stands, ValidPreparation, Describe, Advance;
    if e.a in s.attempts {
      var p := s.attempts[e.a];
      assert AttemptSound(w, s, e.a);
      AdvanceSound(w, s, p, e);
      if e.PutAcked? {
        OwnObjectStands(w, s, e.a);
      }
      StandsGrows(w, s.store, Next(w, s, e).value.store);
    }
  }

  /** How an attempt comes to have an answer, and to know of its object. */
  lemma AdvanceSound(w: World, s: State, p: Progress, e: Event)
    requires Advance(w, s, p, e).Some?
    ensures Answered(Advance(w, s, p, e).value) && !Answered(p.phase) ==>
      e.Answer? && Binding(s, p.job).Some? && ValidPreparation(Binding(s, p.job).value, p.job)
    ensures Settled(Advance(w, s, p, e).value) && !Settled(p.phase) ==>
      e.PutAcked? || (e.Confirmed? && Binding(s, p.job).Some? && Stands(w, s.store, Binding(s, p.job).value))
    ensures e.PutAcked? ==> Answered(p.phase) && p.job.key in s.store && s.store[p.job.key].creator == e.a
  {
    hide Stands, ValidPreparation;
  }

  lemma StandsGrows(w: World, before: map<string, Object>, after: map<string, Object>)
    requires forall k :: k in before ==> k in after && after[k] == before[k]
    ensures forall p :: Stands(w, before, p) ==> Stands(w, after, p)
  {
  }

  lemma ObjectSoundKept(w: World, s: State, e: Event, k: string)
    requires Sound(w, s) && Next(w, s, e).Some? && k in Next(w, s, e).value.store
    ensures ObjectSound(w, Next(w, s, e).value, k)
  {
    hide BoundByAttempt, AttemptSound, Advance, Bound;
    if k in s.store {
      assert ObjectSound(w, s, k);
    }
  }

  lemma NewBinding(w: World, s: State, e: Event, d: string)
    requires Next(w, s, e).Some? && d in Next(w, s, e).value.bound && d !in s.bound
    ensures e.a in s.attempts && s.attempts[e.a].job.deployment == d
    ensures var job := s.attempts[e.a].job; Next(w, s, e).value.bound[d] == Describe(w, job, w.build(e.a, job))
  {
    hide Advance, Landed, Describe;
  }

  lemma BindingKept(w: World, s: State, e: Event, d: string)
    requires Sound(w, s) && Next(w, s, e).Some? && d in Next(w, s, e).value.bound
    ensures BoundByAttempt(w, d, Next(w, s, e).value.bound[d])
  {
    hide ObjectSound, AttemptSound, Stands, ValidPreparation, Describe, Next;
    if d in s.bound {
      NextKeeps(w, s, e);
    } else {
      NewBinding(w, s, e, d);
    }
  }

  lemma SoundStep(w: World, s: State, e: Event)
    requires Reproducible(w) && Sound(w, s) && Next(w, s, e).Some?
    ensures Sound(w, Next(w, s, e).value)
  {
    hide Next, ObjectSound, AttemptSound, BoundByAttempt, Reproducible;
    var t := Next(w, s, e).value;
    forall d | d in t.bound ensures BoundByAttempt(w, d, t.bound[d]) {
      BindingKept(w, s, e, d);
    }
    forall k | k in t.store ensures ObjectSound(w, t, k) {
      ObjectSoundKept(w, s, e, k);
    }
    forall a | a in t.attempts ensures AttemptSound(w, t, a) {
      if a == e.a {
        AttemptSoundKept(w, s, e);
      } else {
        NextKeeps(w, s, e);
        OthersKeep(w, s, e, a);
      }
    }
  }

  lemma {:induction false} RunSound(w: World, trace: seq<Event>, states: seq<State>, n: nat)
    requires Reproducible(w) && Run(w, trace, states) && n <= |trace|
    ensures Sound(w, states[n])
  {
    hide Next, Reproducible;
    if n > 0 {
      RunSound(w, trace, states, n - 1);
      assert Next(w, states[n - 1], trace[n - 1]) == Some(states[n - 1 + 1]);
      SoundStep(w, states[n - 1], trace[n - 1]);
    }
  }

  /** Every publish call names an object that is there, with the published length and digest, for good. */
  ghost predicate PublishesWhatIsStored(w: World, trace: seq<Event>, states: seq<State>)
    requires Run(w, trace, states)
  {
    forall n, m :: 0 <= n < m <= |trace| && trace[n].Publish? ==> PublishStands(w, states, trace[n].a, n, m)
  }

  ghost predicate PublishStands(w: World, states: seq<State>, a: Attempt, n: nat, m: nat)
    requires n < |states| && m < |states|
  {
    && a in states[n].attempts && states[n].attempts[a].job.deployment in states[n].bound
    && Stands(w, states[m].store, states[n].bound[states[n].attempts[a].job.deployment])
  }

  lemma PublishSafe(w: World, trace: seq<Event>, states: seq<State>)
    requires Reproducible(w) && Run(w, trace, states)
    ensures PublishesWhatIsStored(w, trace, states)
  {
    hide Reproducible;
    forall n, m | 0 <= n < m <= |trace| && trace[n].Publish? ensures PublishStands(w, states, trace[n].a, n, m) {
      var a := trace[n].a;
      RunSound(w, trace, states, n);
      assert Next(w, states[n], trace[n]) == Some(states[n + 1]);
      assert AttemptSound(w, states[n], a);
      RunKeeps(w, trace, states, n, m, states[n].bound[states[n].attempts[a].job.deployment].key);
    }
  }

  // ---------------------------------------------------------------- and only then

  lemma Extend(
    w: World, trace: seq<Event>, states: seq<State>, e: Event) returns (trace': seq<Event>, states': seq<State>)
    requires Run(w, trace, states) && |states| == |trace| + 1 && Next(w, states[|trace|], e).Some?
    ensures trace' == trace + [e] && states' == states + [Next(w, states[|trace|], e).value]
    ensures Run(w, trace', states') && |states'| == |trace'| + 1
    ensures states'[|trace'|] == Next(w, states[|trace|], e).value
  {
    hide Next;
    var t := Next(w, states[|trace|], e).value;
    RunExtends(w, trace, states, e, t);
    trace', states' := trace + [e], states + [t];
  }

  /** The first attempt has its output bound, and then nothing more is heard of it. */
  lemma FirstAttemptBinds(w: World, a: Attempt, job: Job) returns (trace: seq<Event>, states: seq<State>)
    ensures Run(w, trace, states) && |states| == |trace| + 1
    ensures states[|trace|] == State(map[], map[job.deployment := Describe(w, job, w.build(a, job))], {a}, {},
                                     map[a := Progress(job, true, Asked)])
  {
    hide Run;
    EmptyRun(w);
    trace, states := [], [EMPTY];
    trace, states := Extend(w, trace, states, Begin(a, job));
    trace, states := Extend(w, trace, states, GrantsRefreshed(a));
    trace, states := Extend(w, trace, states, BuildDone(a));
    trace, states := Extend(w, trace, states, Ask(a));
    trace, states := Extend(w, trace, states, Bind(a));
  }

  lemma EmptyRun(w: World)
    ensures Run(w, [], [EMPTY])
  {
  }

  /** A later attempt finds the binding but no object, puts its own archive, and publishes the binding. */
  lemma SecondAttemptPublishes(w: World, a: Attempt, job: Job, b: Attempt, other: Job)
    returns (trace: seq<Event>, states: seq<State>)
    requires a != b && SameTarget(job, other)
    requires |w.build(a, job).archive| >= 1 && w.build(a, job).logicalSize >= 1
    ensures Run(w, trace, states) && |states| == |trace| + 1 && trace != []
    ensures var n := |trace| - 1;
      && trace[n] == Publish(b) && b in states[n].attempts && states[n].attempts[b].job == other
      && states[n].bound == map[job.deployment := Describe(w, job, w.build(a, job))]
      && states[n + 1].store == map[job.key := Object(w.build(b, other).archive, b)]
  {
    hide Run;
    trace, states := FirstAttemptBinds(w, a, job);
    trace, states := SecondAttemptAsks(w, trace, states, a, job, b, other);
    trace, states := Extend(w, trace, states, Unconfirmed(b));
    trace, states := Extend(w, trace, states, Land(b));
    trace, states := Extend(w, trace, states, PutAcked(b));
    ghost var before := states[|trace|];
    trace, states := Extend(w, trace, states, Publish(b));
    assert states[|trace| - 1] == before;
  }

  lemma SecondAttemptAsks(
    w: World, trace0: seq<Event>, states0: seq<State>, a: Attempt, job: Job, b: Attempt, other: Job)
    returns (trace: seq<Event>, states: seq<State>)
    requires a != b && SameTarget(job, other)
    requires |w.build(a, job).archive| >= 1 && w.build(a, job).logicalSize >= 1
    requires Run(w, trace0, states0) && |states0| == |trace0| + 1
    requires states0[|trace0|] == State(map[], map[job.deployment := Describe(w, job, w.build(a, job))], {a}, {},
                                        map[a := Progress(job, true, Asked)])
    ensures Run(w, trace, states) && |states| == |trace| + 1
    ensures var s := states[|trace|];
      && s.store == map[] && s.sent == {} && s.bound == map[job.deployment := Describe(w, job, w.build(a, job))]
      && b in s.attempts && s.attempts[b] == Progress(other, true, Checking(false))
  {
    hide Run;
    trace, states := Extend(w, trace0, states0, Begin(b, other));
    trace, states := Extend(w, trace, states, GrantsRefreshed(b));
    trace, states := Extend(w, trace, states, BuildDone(b));
    trace, states := Extend(w, trace, states, Ask(b));
    trace, states := Extend(w, trace, states, Answer(b, true));
  }

  /** A builder never returns an empty archive or nothing but empty files. */
  ghost predicate Substantial(w: World)
  {
    forall a, job :: |w.build(a, job).archive| >= 1 && w.build(a, job).logicalSize >= 1
  }

  lemma UnsafeRun(w: World) returns (trace: seq<Event>, states: seq<State>)
    requires Substantial(w) && !Reproducible(w)
    ensures Run(w, trace, states) && !PublishesWhatIsStored(w, trace, states)
  {
    var a, b, job, other :| SameTarget(job, other) && !SameBytes(w, w.build(a, job), w.build(b, other));
    var x, y, j, k := a, b, job, other;
    if a == b {
      x, y, j, k := ThirdAttempt(w, a, job, other);
    }
    trace, states := SecondAttemptPublishes(w, x, j, y, k);
    var n := |trace| - 1;
    assert !PublishStands(w, states, y, n, n + 1);
  }

  /** Two different attempts whose outputs differ, when one attempt's outputs differ between two requests. */
  lemma ThirdAttempt(w: World, a: Attempt, job: Job, other: Job) returns (x: Attempt, y: Attempt, j: Job, k: Job)
    requires SameTarget(job, other) && !SameBytes(w, w.build(a, job), w.build(a, other))
    ensures x != y && SameTarget(j, k) && !SameBytes(w, w.build(x, j), w.build(y, k))
  {
    y := a + 1;
    if SameBytes(w, w.build(a, job), w.build(y, job)) {
      x, j, k := a, other, job;
    } else {
      x, j, k := a, job, job;
    }
  }

  /** Publishing is safe in all runs if and only if builds are reproducible. */
  lemma PublishSafeExactly(w: World)
    requires Substantial(w)
    ensures Reproducible(w) <==> forall trace, states :: Run(w, trace, states) ==> PublishesWhatIsStored(w, trace, states)
  {
    hide Run, PublishesWhatIsStored, Substantial, Reproducible;
    if Reproducible(w) {
      forall trace, states | Run(w, trace, states) ensures PublishesWhatIsStored(w, trace, states) {
        PublishSafe(w, trace, states);
      }
    } else {
      var trace, states := UnsafeRun(w);
    }
  }

  // ---------------------------------------------------------------- the callback gate

  predicate HasGrants(trace: seq<Event>, a: Attempt)
  {
    trace != [] && (trace[|trace| - 1] == GrantsRefreshed(a) || HasGrants(trace[..|trace| - 1], a))
  }

  /** A published or failed callback of the attempt was acknowledged after its grants were refreshed. */
  predicate Acknowledged(trace: seq<Event>, a: Attempt, status: Status)
  {
    trace != [] &&
    var last, before := trace[|trace| - 1], trace[..|trace| - 1];
    ((last == PublishAcked(a) && status == Published && HasGrants(before, a)) ||
     (last == FailureAcked(a) && status == JobFailed && HasGrants(before, a)) ||
     Acknowledged(before, a, status))
  }

  /** What an attempt remembers about its callbacks is what happened. */
  ghost predicate GateSound(trace: seq<Event>, s: State, a: Attempt)
  {
    a in s.attempts ==>
      var p := s.attempts[a];
      && (p.refreshed ==> HasGrants(trace, a))
      && (p.phase !in {Started, Failing} && !(p.phase.Ended? && p.phase.status == JobFailed) ==> p.refreshed)
      && (p.phase.Ended? && p.phase.delivered ==> Acknowledged(trace, a, p.phase.status))
  }

  lemma GateStep(w: World, trace: seq<Event>, s: State, e: Event, a: Attempt)
    requires GateSound(trace, s, a) && Next(w, s, e).Some?
    ensures GateSound(trace + [e], Next(w, s, e).value, a)
  {
    var trace' := trace + [e];
    assert trace'[..|trace'| - 1] == trace && trace'[|trace'| - 1] == e;
  }

  /** Whenever an attempt believes its terminal callback was delivered, it was, after a grant refresh. */
  lemma {:induction false} RunGate(w: World, trace: seq<Event>, states: seq<State>, n: nat, a: Attempt)
    requires Run(w, trace, states) && n <= |trace|
    ensures GateSound(trace[..n], states[n], a)
  {
    hide Next;
    if n > 0 {
      RunGate(w, trace, states, n - 1, a);
      assert Next(w, states[n - 1], trace[n - 1]) == Some(states[n - 1 + 1]);
      GateStep(w, trace[..n - 1], states[n - 1], trace[n - 1], a);
      assert trace[..n - 1] + [trace[n - 1]] == trace[..n];
    }
  }
}
