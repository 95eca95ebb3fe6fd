/**
 The boundary between the job queue and the compiler worker: which envelopes are accepted, what each
 attempt executes, and when a job may leave the queue.
 */
module Worker {
  import opened JobQueue
  import opened Options
  import Upload
  import FileQueue
  import UploadCode

  datatype Envelope = Envelope(request: string, job: Upload.Job, issuedAt: int, expiresAt: int)

  /** JSON decoding with its shape checks, `validateCompilerJob`, and the job fingerprint. */
  datatype Library = Library(
    decode: Body -> Option<Envelope>,
    validJob: Upload.Job -> bool,
    fingerprint: Upload.Job -> string)

  const MAX_SKEW := 60000
  const MAX_LIFETIME := 5 * 60 * 1000

  predicate ValidLifetime(issued: int, expires: int, now: int)
  {
    issued <= now + MAX_SKEW && expires > now && expires - issued <= MAX_LIFETIME
  }

  /** `parseEnvelope`. */
  function ParseEnvelope(lib: Library, body: Body, now: int): (r: Option<Envelope>)
    ensures r.Some? ==> r == lib.decode(body) && r.value.request == r.value.job.request
  {
    match lib.decode(body)
    case None => None
    case Some(e) =>
      if e.request == e.job.request && ValidLifetime(e.issuedAt, e.expiresAt, now) && lib.validJob(e.job) then Some(e)
      else None
  }

  /** `parseQueuedEnvelope`: the same checks, as of the moment the envelope was issued. */
  function ParseQueued(lib: Library, body: Body): (r: Option<Envelope>)
  {
    match lib.decode(body)
    case None => None
    case Some(e) => ParseEnvelope(lib, body, e.issuedAt)
  }

  /**
   A body is let through exactly when it decodes to a valid job under its own request, issued at most
   a minute ahead, not expired, and made to live for at most five minutes.  One that is let through
   now is let through at another moment exactly when that lies between its issue, less a minute, and
   its expiry; none is let through for longer than six minutes.
   */
  lemma AcceptanceWindow(lib: Library, body: Body, now: int, later: int)
    ensures ParseEnvelope(lib, body, now).Some? <==>
      exists e :: lib.decode(body) == Some(e) && e.request == e.job.request && lib.validJob(e.job) &&
        e.issuedAt - 60000 <= now < e.expiresAt && e.expiresAt <= e.issuedAt + 300000
    ensures ParseEnvelope(lib, body, now).Some? ==>
      var e := ParseEnvelope(lib, body, now).value;
      && (ParseEnvelope(lib, body, later) == Some(e) <==> e.issuedAt - 60000 <= later < e.expiresAt)
      && (ParseEnvelope(lib, body, later).Some? ==> later < now + 360000)
  {
    if lib.decode(body).Some? {
      var e := lib.decode(body).value;
      assert lib.decode(body) == Some(e);
    }
  }

  /** An accepted body can be executed, whenever an attempt takes it up, if and only if it expires after it is issued. */
  lemma AcceptedIsExecutable(lib: Library, body: Body, now: int)
    requires ParseEnvelope(lib, body, now).Some?
    ensures var e := ParseEnvelope(lib, body, now).value;
      && (ParseQueued(lib, body).Some? <==> e.issuedAt < e.expiresAt)
      && (ParseQueued(lib, body).Some? ==> ParseQueued(lib, body) == Some(e))
  {
  }

  /** Within the allowed clock skew there are accepted envelopes that no attempt can ever parse. */
  lemma AcceptedButNeverExecutable(lib: Library, body: Body, e: Envelope)
    requires lib.decode(body) == Some(e) && e.request == e.job.request && lib.validJob(e.job)
    requires e.issuedAt == 60000 && (e.expiresAt == 1 || e.expiresAt == 60000)
    ensures ParseEnvelope(lib, body, 0) == Some(e)
    ensures ParseQueued(lib, body) == None
  {
  }

  function IdentityOf(lib: Library, e: Envelope): Identity
  {
    Identity(e.request, e.job.deployment, lib.fingerprint(e.job))
  }

  // ---------------------------------------------------------------- every attempt executes the same job

  /** A body that `consume` let through at some moment, and the identity it goes into the queue with. */
  ghost predicate PassedAt(lib: Library, body: Body, identity: Identity, at: int)
  {
    var parsed := ParseEnvelope(lib, body, at); parsed.Some? && identity == IdentityOf(lib, parsed.value)
  }

  /** Everything in the queue came through `consume`; the queue reads the clock later, on its own. */
  ghost predicate Consumed(lib: Library, e: Event)
  {
    e.Accepted? || e.Redelivered? ==> exists at :: PassedAt(lib, e.body, e.identity, at)
  }

  ghost predicate AllConsumed(lib: Library, trace: seq<Event>)
  {
    forall i :: 0 <= i < |trace| ==> Consumed(lib, trace[i])
  }

  /** A delivered body was delivered under the identity its job was accepted with. */
  lemma {:induction false} DeliveredUnderFirstIdentity(
    base: nat, trace: seq<Event>, states: seq<State>, n: nat, id: Id, body: Body)
    returns (k: nat)
    requires Run(base, trace, states) && n <= |trace| && Delivered(trace[..n], id, body)
    ensures k < n && (trace[k].Accepted? || trace[k].Redelivered?)
    ensures trace[k].identity.id == id && trace[k].body == body && FirstIdentity(trace[..n], id) == Some(trace[k].identity)
    decreases n
  {
    hide Step, RecordAgrees;
    var e := trace[n - 1];
    assert trace[..n][..n - 1] == trace[..n - 1];
    if (e.Accepted? || e.Redelivered?) && e.identity.id == id && e.body == body {
      k := n - 1;
      RunAgrees(base, trace, states, n - 1, id);
      RunAgrees(base, trace, states, n, id);
      DeliveryFacts(base, trace, states, n - 1);
      assert trace[..n - 1] + [e] == trace[..n];
      Extended(trace[..n - 1], e, id);
    } else {
      k := DeliveredUnderFirstIdentity(base, trace, states, n - 1, id, body);
      FirstIdentityStays(trace, n - 1, n, id);
    }
  }

  lemma DeliveryFacts(base: nat, trace: seq<Event>, states: seq<State>, n: nat)
    requires Run(base, trace, states) && n < |trace| && (trace[n].Accepted? || trace[n].Redelivered?)
    ensures var s, id := states[n], trace[n].identity.id;
      && (trace[n].Accepted? ==> id !in s.jobs && id !in s.archive)
      && (trace[n].Redelivered? ==> id in s.jobs && s.jobs[id].identity == trace[n].identity)
    ensures var id := trace[n].identity.id; trace[n].Redelivered? ==> FirstIdentity(trace[..n], id) == Some(trace[n].identity)
  {
    assert Step(base, states[n], trace[n], states[n + 1]);
    RunAgrees(base, trace, states, n, trace[n].identity.id);
  }

  /** The envelope behind a claim is one for that very job, and names its fingerprint. */
  lemma ClaimedEnvelope(base: nat, lib: Library, trace: seq<Event>, states: seq<State>, m: nat)
    requires Run(base, trace, states) && AllConsumed(lib, trace) && m < |trace| && trace[m].Claimed?
    ensures lib.decode(trace[m].body).Some?
    ensures var e := lib.decode(trace[m].body).value;
      e.request == trace[m].id && e.job.request == trace[m].id &&
      FirstIdentity(trace[..m], trace[m].id) == Some(IdentityOf(lib, e))
  {
    hide Step, Run, Delivered;
    ClaimsDeliverOwnBodies(base, trace, states, m);
    var k := DeliveredUnderFirstIdentity(base, trace, states, m, trace[m].id, trace[m].body);
    assert Consumed(lib, trace[k]);
  }

  ghost predicate CollisionFree(lib: Library)
  {
    forall a, b :: lib.fingerprint(a) == lib.fingerprint(b) ==> a == b
  }

  /**
   All attempts ever made for one request carry jobs with one fingerprint, so they execute the same
   job wherever the fingerprint tells jobs apart.
   */
  lemma SameJobEveryTime(base: nat, lib: Library, trace: seq<Event>, states: seq<State>, m: nat, n: nat)
    requires Run(base, trace, states) && AllConsumed(lib, trace) && m <= n < |trace|
    requires trace[m].Claimed? && trace[n].Claimed? && trace[m].id == trace[n].id
    ensures lib.decode(trace[m].body).Some? && lib.decode(trace[n].body).Some?
    ensures var a, b := lib.decode(trace[m].body).value.job, lib.decode(trace[n].body).value.job;
      && lib.fingerprint(a) == lib.fingerprint(b) && a.deployment == b.deployment
      && (CollisionFree(lib) ==> a == b)
  {
    hide Step, Run;
    ClaimedEnvelope(base, lib, trace, states, m);
    ClaimedEnvelope(base, lib, trace, states, n);
    FirstIdentityStays(trace, m, n, trace[m].id);
  }

  // ---------------------------------------------------------------- queue and attempts together

  datatype Held = Held(id: Id, body: Body)

  /** The queue's history, the network's history, and which attempts hold which claims. */
  datatype Whole = Whole(
    queueTrace: seq<Event>, queueStates: seq<State>,
    netTrace: seq<Upload.Event>, netStates: seq<Upload.State>,
    held: map<Upload.Attempt, Held>)

  const START := Whole([], [JobQueue.EMPTY], [], [Upload.EMPTY], map[])

  datatype Happening =
    | InQueue(e: Event)
    | Stop
    | Take(a: Upload.Attempt, e: Event)
    | OnNet(n: Upload.Event)
    | Finish(a: Upload.Attempt, e: Event)

  ghost function Queue(x: Whole): State
    requires |x.queueStates| == |x.queueTrace| + 1
  {
    x.queueStates[|x.queueTrace|]
  }

  ghost function Net(x: Whole): Upload.State
    requires |x.netStates| == |x.netTrace| + 1
  {
    x.netStates[|x.netTrace|]
  }

  /** `terminal` in `processQueued`. */
  predicate TerminalPhase(phase: Upload.Phase)
  {
    phase.Ended? && phase.delivered && (phase.status == Upload.Published || phase.status == Upload.JobFailed)
  }

  ghost predicate Shaped(x: Whole)
  {
    |x.queueStates| == |x.queueTrace| + 1 && |x.netStates| == |x.netTrace| + 1
  }

  ghost predicate QueueMoves(base: nat, x: Whole, e: Event, y: Whole)
    requires Shaped(x) && Shaped(y)
  {
    y.queueTrace == x.queueTrace + [e] && y.queueStates == x.queueStates + [Queue(y)] && Step(base, Queue(x), e, Queue(y))
  }

  /** An attempt acts only while it holds its claim; what it has sent may still arrive later. */
  ghost predicate MayAct(lib: Library, x: Whole, n: Upload.Event)
  {
    if n.Begin? then
      n.a in x.held && ParseQueued(lib, x.held[n.a].body).Some? && ParseQueued(lib, x.held[n.a].body).value.job == n.job
    else n.Bind? || n.Land? || n.a in x.held
  }

  ghost predicate Happens(base: nat, lib: Library, w: Upload.World, x: Whole, h: Happening, y: Whole)
  {
    && Shaped(x) && Shaped(y)
    && (!h.OnNet? ==> y.netTrace == x.netTrace && y.netStates == x.netStates)
    && (h.OnNet? ==> y.queueTrace == x.queueTrace && y.queueStates == x.queueStates)
    && match h
       case InQueue(e) =>
         QueueMoves(base, x, e, y) && Consumed(lib, e) && !e.Claimed? && !e.Retried? && !e.Archived? && !e.Crashed? &&
         y.held == x.held
       case Stop => QueueMoves(base, x, Crashed, y) && y.held == map[]
       case Take(a, e) =>
         QueueMoves(base, x, e, y) && e.Claimed? && a !in x.held && a !in Net(x).attempts &&
         y.held == x.held[a := Held(e.id, e.body)]
       case OnNet(n) =>
         MayAct(lib, x, n) && Upload.Next(w, Net(x), n) == Some(Net(y)) &&
         y.netTrace == x.netTrace + [n] && y.netStates == x.netStates + [Net(y)] && y.held == x.held
       case Finish(a, e) =>
         a in x.held && QueueMoves(base, x, e, y) && y.held == x.held - {a} &&
         if a in Net(x).attempts && TerminalPhase(Net(x).attempts[a].phase) then e == Archived(x.held[a].id)
         else e.Retried? && e.id == x.held[a].id
  }

  ghost predicate History(base: nat, lib: Library, w: Upload.World, hs: seq<Happening>, xs: seq<Whole>)
  {
    && |xs| == |hs| + 1
    && xs[0] == START
    && forall i :: 0 <= i < |hs| ==> Happens(base, lib, w, xs[i], hs[i], xs[i + 1])
  }

  ghost predicate HeldSound(lib: Library, x: Whole, a: Upload.Attempt)
    requires Shaped(x) && a in x.held
  {
    && Delivered(x.queueTrace, x.held[a].id, x.held[a].body)
    && (a in Net(x).attempts ==>
          ParseQueued(lib, x.held[a].body).Some? && ParseQueued(lib, x.held[a].body).value.job == Net(x).attempts[a].job)
  }

  ghost predicate Coherent(base: nat, lib: Library, w: Upload.World, x: Whole)
  {
    && Shaped(x)
    && Run(base, x.queueTrace, x.queueStates) && AllConsumed(lib, x.queueTrace)
    && Upload.Run(w, x.netTrace, x.netStates)
    && forall a :: a in x.held ==> HeldSound(lib, x, a)
  }

  lemma QueueCoherent(base: nat, lib: Library, w: Upload.World, x: Whole, h: Happening, y: Whole)
    requires Coherent(base, lib, w, x) && Happens(base, lib, w, x, h, y) && !h.OnNet?
    ensures Run(base, y.queueTrace, y.queueStates) && AllConsumed(lib, y.queueTrace)
    ensures forall id, body :: Delivered(x.queueTrace, id, body) ==> Delivered(y.queueTrace, id, body)
    ensures h.Take? ==> Delivered(y.queueTrace, h.e.id, h.e.body)
  {
    hide Step, Run, HeldSound, Delivered, Upload.Run;
    var e := if h.Stop? then Crashed else h.e;
    RunExtends(base, x.queueTrace, x.queueStates, e, Queue(y));
    forall id: Id, body: Body | Delivered(x.queueTrace, id, body) ensures Delivered(y.queueTrace, id, body) {
      DeliveredExtends(x.queueTrace, e, id, body);
    }
    if h.Take? {
      var m := |x.queueTrace|;
      assert y.queueTrace[..m] == x.queueTrace;
      ClaimsDeliverOwnBodies(base, y.queueTrace, y.queueStates, m);
    }
  }

  lemma CoherentStep(base: nat, lib: Library, w: Upload.World, x: Whole, h: Happening, y: Whole)
    requires Coherent(base, lib, w, x) && Happens(base, lib, w, x, h, y)
    ensures Coherent(base, lib, w, y)
  {
    hide Step, Run, Delivered, Upload.Run, Upload.Next, AllConsumed, QueueMoves, Consumed, ParseQueued;
    if h.OnNet? {
      Upload.RunExtends(w, x.netTrace, x.netStates, h.n, Net(y));
      Upload.NextKeeps(w, Net(x), h.n);
      forall a | a in y.held ensures HeldSound(lib, y, a) {
        assert HeldSound(lib, x, a);
        if h.n.a == a && a !in Net(x).attempts {
          BeginOnly(w, Net(x), h.n);
        }
      }
    } else {
      QueueCoherent(base, lib, w, x, h, y);
      forall a | a in y.held ensures HeldSound(lib, y, a) {
        if a in x.held {
          assert HeldSound(lib, x, a);
        }
      }
    }
  }

  lemma BeginOnly(w: Upload.World, s: Upload.State, n: Upload.Event)
    requires Upload.Next(w, s, n).Some? && n.a !in s.attempts
    ensures n.Begin? && n.a in Upload.Next(w, s, n).value.attempts
    ensures Upload.Next(w, s, n).value.attempts[n.a].job == n.job
  {
  }

  lemma {:induction false} HistoryCoherent(
    base: nat, lib: Library, w: Upload.World, hs: seq<Happening>, xs: seq<Whole>, n: nat)
    requires History(base, lib, w, hs, xs) && n <= |hs|
    ensures Coherent(base, lib, w, xs[n])
  {
    hide Happens;
    if n > 0 {
      HistoryCoherent(base, lib, w, hs, xs, n - 1);
      assert Happens(base, lib, w, xs[n - 1], hs[n - 1], xs[n - 1 + 1]);
      CoherentStep(base, lib, w, xs[n - 1], hs[n - 1], xs[n]);
    }
  }

  /**
   A job reaches the archive only when an attempt that held its claim has had a published or failed
   callback, for that very request, acknowledged after refreshing its grants.
   */
  lemma ArchivedOnlyAfterCallback(base: nat, lib: Library, w: Upload.World, hs: seq<Happening>, xs: seq<Whole>, n: nat)
    requires History(base, lib, w, hs, xs) && n < |hs| && hs[n].Finish? && hs[n].e.Archived?
    ensures var x, a := xs[n], hs[n].a;
      && Shaped(x) && a in Net(x).attempts
      && var p := Net(x).attempts[a];
      && p.job.request == hs[n].e.id && p.phase.Ended?
      && (p.phase.status == Upload.Published || p.phase.status == Upload.JobFailed)
      && Upload.Acknowledged(x.netTrace, a, p.phase.status)
  {
    hide Step, Run, Delivered, Upload.Run, Upload.Next, AllConsumed, QueueMoves, Upload.Acknowledged;
    var x, a := xs[n], hs[n].a;
    HistoryCoherent(base, lib, w, hs, xs, n);
    assert Happens(base, lib, w, xs[n], hs[n], xs[n + 1]);
    assert HeldSound(lib, x, a);
    var m := |x.queueTrace|;
    var k := DeliveredUnderFirstIdentity(base, x.queueTrace, x.queueStates, m, x.held[a].id, x.held[a].body) by {
      assert x.queueTrace[..m] == x.queueTrace;
    }
    assert Consumed(lib, x.queueTrace[k]) by { OneConsumed(lib, x.queueTrace, k); }
    UploadCode.Believed(w, x.netTrace, x.netStates, a);
  }

  /**
   A job reaches the archive only by a delivery that expires after it is issued. One that was accepted within the clock
   skew, and expires earlier or at the same moment, is claimed and retried for ever unless a better one is delivered.
   */
  lemma ArchivedWasExecutable(
    base: nat, lib: Library, w: Upload.World, hs: seq<Happening>, xs: seq<Whole>, n: nat)
    returns (k: nat, at: int)
    requires History(base, lib, w, hs, xs) && n < |hs| && hs[n].Finish? && hs[n].e.Archived?
    ensures k < |xs[n].queueTrace| && (xs[n].queueTrace[k].Accepted? || xs[n].queueTrace[k].Redelivered?)
    ensures var d := xs[n].queueTrace[k];
      && d.identity.id == hs[n].e.id && PassedAt(lib, d.body, d.identity, at)
      && ParseEnvelope(lib, d.body, at).value.issuedAt < ParseEnvelope(lib, d.body, at).value.expiresAt
  {
    hide Step, Run, Delivered, Upload.Run, Upload.Next, AllConsumed, QueueMoves, Upload.Acknowledged;
    var x, a := xs[n], hs[n].a;
    HistoryCoherent(base, lib, w, hs, xs, n);
    assert Happens(base, lib, w, xs[n], hs[n], xs[n + 1]);
    assert HeldSound(lib, x, a);
    var m := |x.queueTrace|;
    k := DeliveredUnderFirstIdentity(base, x.queueTrace, x.queueStates, m, x.held[a].id, x.held[a].body) by {
      assert x.queueTrace[..m] == x.queueTrace;
    }
    assert Consumed(lib, x.queueTrace[k]) by { OneConsumed(lib, x.queueTrace, k); }
    at :| PassedAt(lib, x.queueTrace[k].body, x.queueTrace[k].identity, at);
    AcceptedIsExecutable(lib, x.held[a].body, at);
  }

  lemma OneConsumed(lib: Library, trace: seq<Event>, k: nat)
    requires AllConsumed(lib, trace) && k < |trace|
    ensures Consumed(lib, trace[k])
  {
  }

  // ---------------------------------------------------------------- the worker's own methods

  datatype Response = Accepted202 | Invalid400 | Conflict409

  /** `consume`, after authentication: the envelope is judged at one moment and queued at another. */
  method Consume(lib: Library, q: FileQueue.FileQueue, body: Body, at: int, now: int) returns (r: Response)
    requires q.Valid() && q.up && AllConsumed(lib, q.trace)
    modifies q
    ensures q.Valid() && q.up && AllConsumed(lib, q.trace)
    ensures r == Invalid400 <==> ParseEnvelope(lib, body, at).None?
    ensures r == Invalid400 ==> q.trace == old(q.trace)
    ensures r == Accepted202 ==> |q.trace| == |old(q.trace)| + 1 && !q.trace[|old(q.trace)|].Refused?
  {
    hide Run;
    var parsed := ParseEnvelope(lib, body, at);
    if parsed.None? {
      return Invalid400;
    }
    assert PassedAt(lib, body, IdentityOf(lib, parsed.value), at);
    var d := q.Enqueue(IdentityOf(lib, parsed.value), body, now);
    return if d == FileQueue.Conflict then Conflict409 else Accepted202;
  }

  /** `processQueued`: the job is archived only on a delivered terminal callback, and otherwise retried. */
  method ProcessQueued(lib: Library, q: FileQueue.FileQueue, net: UploadCode.Network, a: Upload.Attempt,
                       ticket: FileQueue.Ticket, now: int)
    requires q.Valid() && q.up && net.Valid() && a !in net.state.attempts
    modifies q, net
    ensures q.Valid() && net.Valid() && old(q.trace) <= q.trace && old(net.trace) <= net.trace
    ensures Archived(ticket.id) in q.trace[|old(q.trace)|..] ==>
      && ParseQueued(lib, ticket.body).Some? && a in net.state.attempts
      && net.state.attempts[a].job == ParseQueued(lib, ticket.body).value.job
      && TerminalPhase(net.state.attempts[a].phase)
      && Upload.Acknowledged(net.trace, a, net.state.attempts[a].phase.status)
    ensures !(Archived(ticket.id) in q.trace[|old(q.trace)|..]) ==>
      q.trace == old(q.trace) || q.trace == old(q.trace) + [Retried(ticket.id, now)]
  {
    hide Run, Upload.Run, Upload.Acknowledged, FileQueue.DiskOk, FileQueue.Meaning;
    var parsed := ParseQueued(lib, ticket.body);
    var terminal := false;
    if parsed.Some? {
      var status, delivered := net.Attempt(a, parsed.value.job);
      terminal := delivered && (status == Upload.Published || status == Upload.JobFailed);
    }
    if terminal {
      var r := q.FinishTerminal(ticket.id);
    } else {
      var r := q.FinishRetry(ticket.id, now);
    }
  }
}
