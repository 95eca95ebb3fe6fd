/**
 The filesystem queue: a directory of pending records and a directory of archived ones, both keyed by
 the hash of the job id. Every file write or removal is one step, and the process may stop between
 any two of them.
 */
module FileQueue {
  import opened JobQueue
  import opened Options

  datatype Delivery = NewJob | DuplicateJob | Conflict
  datatype Ended = Done | StateConflict | Stopped
  datatype Ticket = Ticket(id: Id, deployment: string, body: Body, attempts: nat)

  /** The two directories, by file name, and whether the process that owns them has initialized. */
  datatype Disk = Disk(pending: map<nat, Record>, archive: map<nat, Record>, up: bool)

  // ---------------------------------------------------------------- what the directories mean

  /** Every record sits in the file named after its own job. */
  ghost predicate Keyed(key: Id -> nat, m: map<nat, Record>)
  {
    forall k :: k in m ==> key(m[k].identity.id) == k
  }

  ghost function Ids(m: map<nat, Record>): set<Id>
  {
    set k | k in m :: m[k].identity.id
  }

  ghost function ById(key: Id -> nat, m: map<nat, Record>): map<Id, Record>
  {
    map id | id in Ids(m) && key(id) in m :: m[key(id)]
  }

  /** An archived job is no longer in the queue, whatever pending file is left. */
  ghost function Meaning(key: Id -> nat, d: Disk): State
  {
    State(ById(key, d.pending - d.archive.Keys), ById(key, d.archive), d.up)
  }

  ghost predicate DiskOk(key: Id -> nat, d: Disk)
  {
    && Keyed(key, d.pending) && Keyed(key, d.archive)
    && (forall k :: k in d.archive ==> d.archive[k].status == Terminal)
    && (forall k :: k in d.pending && k in d.archive ==>
          !d.up && d.pending[k].identity == d.archive[k].identity && d.pending[k].status == Running)
  }

  lemma ByIdAt(key: Id -> nat, m: map<nat, Record>, id: Id)
    requires Keyed(key, m)
    ensures id in ById(key, m) <==> key(id) in m && m[key(id)].identity.id == id
    ensures id in ById(key, m) ==> ById(key, m)[id] == m[key(id)]
  {
  }

  lemma ByIdPut(key: Id -> nat, m: map<nat, Record>, r: Record)
    requires Keyed(key, m)
    requires key(r.identity.id) in m ==> m[key(r.identity.id)].identity.id == r.identity.id
    ensures Keyed(key, m[key(r.identity.id) := r])
    ensures ById(key, m[key(r.identity.id) := r]) == ById(key, m)[r.identity.id := r]
  {
    var k := key(r.identity.id);
    var m' := m[k := r];
    assert Ids(m') == Ids(m) + {r.identity.id} by {
      assert m'[k].identity.id in Ids(m');
      forall id | id in Ids(m) ensures id in Ids(m') {
        var j :| j in m && m[j].identity.id == id;
        assert j in m' && m'[j].identity.id == id;
      }
    }
  }

  lemma ByIdDrop(key: Id -> nat, m: map<nat, Record>, k: nat)
    requires Keyed(key, m) && k in m
    ensures Keyed(key, m - {k})
    ensures ById(key, m - {k}) == ById(key, m) - {m[k].identity.id}
  {
    var m' := m - {k};
    assert Ids(m') == Ids(m) - {m[k].identity.id} by {
      forall id | id in Ids(m) && id != m[k].identity.id ensures id in Ids(m') {
        var j :| j in m && m[j].identity.id == id;
        assert j in m' && m'[j].identity.id == id;
      }
    }
  }

  // ---------------------------------------------------------------- each file step is a queue step

  /** What the queue's state says about one file. */
  lemma MeaningAt(key: Id -> nat, d: Disk, id: Id)
    requires DiskOk(key, d)
    ensures var s, k := Meaning(key, d), key(id);
      && (id in s.jobs <==> k in d.pending && k !in d.archive && d.pending[k].identity.id == id)
      && (id in s.jobs ==> s.jobs[id] == d.pending[k])
      && (id in s.archive <==> k in d.archive && d.archive[k].identity.id == id)
      && (id in s.archive ==> s.archive[id] == d.archive[k])
  {
    hide ById;
    ByIdAt(key, d.pending - d.archive.Keys, id);
    ByIdAt(key, d.archive, id);
  }

  /** Writing a record to a pending file whose job is not archived. */
  lemma WriteRecord(key: Id -> nat, d: Disk, r: Record)
    requires DiskOk(key, d) && key(r.identity.id) !in d.archive
    requires key(r.identity.id) in d.pending ==> d.pending[key(r.identity.id)].identity.id == r.identity.id
    ensures var d' := d.(pending := d.pending[key(r.identity.id) := r]); var s := Meaning(key, d);
      DiskOk(key, d') && Meaning(key, d') == s.(jobs := s.jobs[r.identity.id := r])
  {
    hide ById, Ids;
    var k := key(r.identity.id);
    var visible := d.pending - d.archive.Keys;
    ByIdPut(key, visible, r);
    ByIdPut(key, d.pending, r);
    assert d.pending[k := r] - d.archive.Keys == visible[k := r];
  }

  lemma DeliverNew(base: nat, key: Id -> nat, d: Disk, identity: Identity, body: Body, now: int)
    requires DiskOk(key, d) && d.up && key(identity.id) !in d.archive && key(identity.id) !in d.pending
    ensures var d' := d.(pending := d.pending[key(identity.id) := Fresh(identity, body, now)]);
      DiskOk(key, d') && Step(base, Meaning(key, d), Accepted(identity, body, now), Meaning(key, d'))
  {
    hide DiskOk, Meaning;
    MeaningAt(key, d, identity.id);
    WriteRecord(key, d, Fresh(identity, body, now));
    MeaningUp(key, d);
  }

  lemma DeliverAgain(base: nat, key: Id -> nat, d: Disk, identity: Identity, body: Body, now: int)
    requires DiskOk(key, d) && d.up && key(identity.id) !in d.archive
    requires key(identity.id) in d.pending && d.pending[key(identity.id)].identity == identity
    ensures var k := key(identity.id); var d' := d.(pending := d.pending[k := Redeliver(d.pending[k], body, now)]);
      DiskOk(key, d') && Step(base, Meaning(key, d), Redelivered(identity, body, now), Meaning(key, d'))
  {
    hide DiskOk, Meaning;
    MeaningAt(key, d, identity.id);
    WriteRecord(key, d, Redeliver(d.pending[key(identity.id)], body, now));
    MeaningUp(key, d);
  }

  lemma DeliverArchived(base: nat, key: Id -> nat, d: Disk, identity: Identity)
    requires DiskOk(key, d) && d.up && key(identity.id) in d.archive && d.archive[key(identity.id)].identity == identity
    ensures Step(base, Meaning(key, d), Duplicate(identity), Meaning(key, d))
  {
    hide DiskOk, Meaning;
    MeaningAt(key, d, identity.id);
    MeaningUp(key, d);
  }

  lemma ClaimFile(base: nat, key: Id -> nat, d: Disk, k: nat, now: int)
    requires DiskOk(key, d) && d.up && k in d.pending && Eligible(d.pending[k], now)
    ensures var r := d.pending[k]; var d' := d.(pending := d.pending[k := Claim(r)]);
      DiskOk(key, d') &&
      Step(base, Meaning(key, d), Claimed(r.identity.id, r.body, r.attempts + 1, now), Meaning(key, d'))
  {
    hide Meaning;
    var r := d.pending[k];
    assert key(r.identity.id) == k && k !in d.archive;
    MeaningAt(key, d, r.identity.id);
    WriteRecord(key, d, Claim(r));
    MeaningUp(key, d);
  }

  lemma RetryFile(base: nat, key: Id -> nat, d: Disk, k: nat, now: int)
    requires DiskOk(key, d) && d.up && k in d.pending && d.pending[k].status == Running
    ensures var r := d.pending[k]; var d' := d.(pending := d.pending[k := Reschedule(r, base, now)]);
      DiskOk(key, d') && Step(base, Meaning(key, d), Retried(r.identity.id, now), Meaning(key, d'))
  {
    hide Meaning, RetryDelay;
    var r := d.pending[k];
    assert key(r.identity.id) == k && k !in d.archive;
    MeaningAt(key, d, r.identity.id);
    WriteRecord(key, d, Reschedule(r, base, now));
    MeaningUp(key, d);
  }

  lemma RecoverFile(base: nat, key: Id -> nat, d: Disk, k: nat)
    requires DiskOk(key, d) && !d.up && k in d.pending && k !in d.archive && d.pending[k].status == Running
    ensures var r := d.pending[k]; var d' := d.(pending := d.pending[k := r.(status := Pending)]);
      DiskOk(key, d') && Step(base, Meaning(key, d), Recovered(r.identity.id), Meaning(key, d'))
  {
    hide Meaning;
    var r := d.pending[k];
    assert key(r.identity.id) == k;
    MeaningAt(key, d, r.identity.id);
    WriteRecord(key, d, r.(status := Pending));
    MeaningUp(key, d);
  }

  /** The archive write alone already takes the job out of the queue; the process stops right there. */
  lemma ArchiveFile(base: nat, key: Id -> nat, d: Disk, k: nat)
    requires DiskOk(key, d) && d.up && k in d.pending && d.pending[k].status == Running
    ensures var r := d.pending[k]; var done := d.archive[k := r.(status := Terminal)];
      var s := Meaning(key, Disk(d.pending - {k}, done, true));
      && Step(base, Meaning(key, d), Archived(r.identity.id), s)
      && DiskOk(key, Disk(d.pending - {k}, done, true)) && DiskOk(key, Disk(d.pending, done, false))
      && Meaning(key, Disk(d.pending, done, false)) == s.(up := false)
      && Step(base, s, Removed(r.identity.id), s)
  {
    hide ById, Ids;
    var r := d.pending[k].(status := Terminal);
    var done, visible := d.archive[k := r], d.pending - d.archive.Keys;
    assert key(r.identity.id) == k && k !in d.archive;
    MeaningAt(key, d, r.identity.id);
    ByIdPut(key, d.archive, r);
    ByIdDrop(key, visible, k);
    assert (d.pending - {k}) - done.Keys == visible - {k};
    assert d.pending - done.Keys == visible - {k};
  }

  /** Removing a pending file that an archived one shadows changes nothing. */
  lemma RemoveFile(base: nat, key: Id -> nat, d: Disk, k: nat)
    requires DiskOk(key, d) && k in d.pending && k in d.archive
    ensures var d' := d.(pending := d.pending - {k});
      DiskOk(key, d') && Step(base, Meaning(key, d), Removed(d.pending[k].identity.id), Meaning(key, d'))
  {
    hide ById, Ids;
    var id := d.pending[k].identity.id;
    assert key(id) == k;
    MeaningAt(key, d, id);
    ByIdDrop(key, d.pending, k);
    assert (d.pending - {k}) - d.archive.Keys == d.pending - d.archive.Keys;
  }

  lemma BecomeReady(base: nat, key: Id -> nat, d: Disk)
    requires DiskOk(key, d) && !d.up
    requires Clear(d.pending, d.archive, {})
    ensures var d' := d.(up := true); DiskOk(key, d') && Step(base, Meaning(key, d), Ready, Meaning(key, d'))
  {
    forall id | id in Meaning(key, d).jobs ensures Meaning(key, d).jobs[id].status != Running {
      MeaningAt(key, d, id);
    }
  }

  lemma StopProcess(base: nat, key: Id -> nat, d: Disk)
    requires DiskOk(key, d)
    ensures var d' := d.(up := false); DiskOk(key, d') && Step(base, Meaning(key, d), Crashed, Meaning(key, d'))
  {
  }

  lemma MeaningUp(key: Id -> nat, d: Disk)
    ensures Meaning(key, d).up == d.up
  {
  }

  lemma NothingHappens(base: nat, key: Id -> nat, d: Disk, identity: Identity)
    ensures Step(base, Meaning(key, d), Refused(identity), Meaning(key, d))
    ensures d.up ==> Step(base, Meaning(key, d), Idle, Meaning(key, d))
  {
  }

  // ---------------------------------------------------------------- the queue

  predicate Least(s: set<nat>, k: nat)
  {
    k in s && forall j :: j in s ==> k <= j
  }

  lemma {:induction false} LeastBelow(s: set<nat>, k: nat)
    requires k in s
    ensures exists least :: Least(s, least)
    decreases k
  {
    if !Least(s, k) {
      var j :| j in s && j < k;
      LeastBelow(s, j);
    }
  }

  /** The next file in name order. */
  method FirstName(s: set<nat>) returns (name: nat)
    requires s != {}
    ensures Least(s, name)
  {
    ghost var k :| k in s;
    LeastBelow(s, k);
    name :| name in s && Least(s, name);
  }

  /** What recovery may have done to a file so far. */
  ghost predicate Settled(before: map<nat, Record>, now: map<nat, Record>, archive: map<nat, Record>)
  {
    forall k :: k in before && k !in archive ==>
      k in now && (now[k] == before[k] || now[k] == before[k].(status := Pending))
  }

  ghost predicate Clear(pending: map<nat, Record>, archive: map<nat, Record>, todo: set<nat>)
  {
    forall k :: k in pending && k !in todo ==> pending[k].status != Running && k !in archive
  }

  lemma NothingSettled(pending: map<nat, Record>, archive: map<nat, Record>)
    ensures Clear(pending, archive, pending.Keys) && Settled(pending, pending, archive)
  {
  }

  lemma OneFileSettled(start: map<nat, Record>, before: map<nat, Record>, after: map<nat, Record>,
                       archive: map<nat, Record>, todo: set<nat>, name: nat)
    requires Clear(before, archive, todo) && Settled(start, before, archive) && name in before
    requires name in archive ==> after == before - {name}
    requires name !in archive ==>
      after == before[name := if before[name].status == Running then before[name].(status := Pending) else before[name]]
    ensures Clear(after, archive, todo - {name}) && Settled(start, after, archive)
  {
  }

  class FileQueue {
    const key: Id -> nat
    const retryDelayMs: nat
    var pending: map<nat, Record>
    var archive: map<nat, Record>
    var up: bool

    /** The history of this queue's directories as a run of the protocol. */
    ghost var trace: seq<Event>
    ghost var states: seq<State>

    ghost function Here(): Disk
      reads this
    {
      Disk(pending, archive, up)
    }

    ghost predicate Valid()
      reads this
    {
      && DiskOk(key, Here())
      && Run(retryDelayMs, trace, states) && |states| == |trace| + 1
      && states[|trace|] == Meaning(key, Here())
    }

    /** Record a step that the directories have just taken. */
    ghost method Log(e: Event)
      requires DiskOk(key, Here())
      requires Run(retryDelayMs, trace, states) && |states| == |trace| + 1
      requires Step(retryDelayMs, states[|trace|], e, Meaning(key, Here()))
      modifies this`trace, this`states
      ensures Valid() && trace == old(trace) + [e]
    {
      RunExtends(retryDelayMs, trace, states, e, Meaning(key, Here()));
      trace, states := trace + [e], states + [Meaning(key, Here())];
    }

    constructor (key: Id -> nat, retryDelayMs: nat)
      ensures Valid() && !up && pending == map[] && archive == map[] && trace == []
      ensures this.key == key && this.retryDelayMs == retryDelayMs
    {
      this.key, this.retryDelayMs := key, retryDelayMs;
      pending, archive, up := map[], map[], false;
      trace, states := [], [EMPTY];
    }

    /** The constructor with its check: a delay outside the allowed range throws. */
    static method Open(key: Id -> nat, retryDelayMs: int) returns (q: FileQueue?)
      ensures q == null <==> !(100 <= retryDelayMs <= 300000)
      ensures q != null ==> fresh(q) && q.Valid() && !q.up && q.trace == [] && q.key == key && q.retryDelayMs == retryDelayMs
    {
      if retryDelayMs < 100 || retryDelayMs > 300000 {
        return null;
      }
      q := new FileQueue(key, retryDelayMs);
    }

    /** The process stops; only the directories remain. */
    method Crash()
      requires Valid()
      modifies this`up, this`trace, this`states
      ensures Valid() && !up && trace == old(trace) + [Crashed]
    {
      hide Run, Step, DiskOk, Meaning;
      StopProcess(retryDelayMs, key, Here());
      up := false;
      Log(Crashed);
    }

    /**
     `initialize`: finish interrupted archivals and put running jobs back. It may itself be cut short
     after any file step, and then starts over.
     */
    method Initialize() returns (ok: bool)
      requires Valid() && !up
      modifies this`pending, this`up, this`trace, this`states
      ensures Valid() && (ok <==> up) && old(trace) <= trace
      ensures ok ==> Clear(pending, archive, {})
      ensures Settled(old(pending), pending, archive)
    {
      hide Run, Step, DiskOk, Meaning, Clear, Settled;
      var todo := pending.Keys;
      NothingSettled(pending, archive);
      while todo != {}
        invariant Valid() && !up && old(trace) <= trace && todo <= pending.Keys
        invariant Clear(pending, archive, todo)
        invariant Settled(old(pending), pending, archive)
        decreases |todo|
      {
        if * {
          return false;
        }
        var name := FirstName(todo);
        ghost var before := pending;
        InitializeFile(name);
        OneFileSettled(old(pending), before, pending, archive, todo, name);
        todo := todo - {name};
      }
      BecomeReady(retryDelayMs, key, Here());
      up := true;
      Log(Ready);
      return true;
    }

    /** One turn of the loop above. */
    method InitializeFile(name: nat)
      requires Valid() && !up && name in pending
      modifies this`pending, this`trace, this`states
      ensures Valid() && old(trace) <= trace
      ensures name in archive ==> pending == old(pending) - {name}
      ensures name !in archive ==>
        pending == old(pending)[name := if old(pending)[name].status == Running
                                        then old(pending)[name].(status := Pending) else old(pending)[name]]
    {
      hide Run, Step, DiskOk, Meaning;
      var record := pending[name];
      if name in archive {
        RemoveFile(retryDelayMs, key, Here(), name);
        pending := pending - {name};
        Log(Removed(record.identity.id));
      } else if record.status == Running {
        RecoverFile(retryDelayMs, key, Here(), name);
        pending := pending[name := record.(status := Pending)];
        Log(Recovered(record.identity.id));
      } else {
        assert pending == pending[name := record];
      }
    }

    method Enqueue(identity: Identity, body: Body, now: int) returns (d: Delivery)
      requires Valid() && up
      modifies this`pending, this`trace, this`states
      ensures Valid()
      ensures d == Conflict <==>
        var k := key(identity.id);
        (k in archive && archive[k].identity != identity) ||
        (k !in archive && k in old(pending) && old(pending)[k].identity != identity)
      ensures d == NewJob ==> trace == old(trace) + [Accepted(identity, body, now)]
      ensures d == DuplicateJob ==>
        trace == old(trace) + [if key(identity.id) in archive then Duplicate(identity) else Redelivered(identity, body, now)]
      ensures d == Conflict ==> trace == old(trace) + [Refused(identity)] && pending == old(pending)
    {
      hide Run, Step, DiskOk, Meaning;
      var name := key(identity.id);
      NothingHappens(retryDelayMs, key, Here(), identity);
      if name in archive {
        if archive[name].identity != identity {
          Log(Refused(identity));
          return Conflict;
        }
        DeliverArchived(retryDelayMs, key, Here(), identity);
        Log(Duplicate(identity));
        return DuplicateJob;
      }
      if name in pending {
        if pending[name].identity != identity {
          Log(Refused(identity));
          return Conflict;
        }
        DeliverAgain(retryDelayMs, key, Here(), identity, body, now);
        pending := pending[name := Redeliver(pending[name], body, now)];
        Log(Redelivered(identity, body, now));
        return DuplicateJob;
      }
      DeliverNew(retryDelayMs, key, Here(), identity, body, now);
      pending := pending[name := Fresh(identity, body, now)];
      Log(Accepted(identity, body, now));
      return NewJob;
    }

    /** `claim`: the first due job in file-name order. */
    method Claim(now: int) returns (c: Option<Ticket>)
      requires Valid() && up
      modifies this`pending, this`trace, this`states
      ensures Valid()
      ensures c.None? ==>
        && trace == old(trace) + [Idle] && pending == old(pending)
        && forall k :: k in pending ==> !Eligible(pending[k], now)
      ensures c.Some? ==>
        && trace == old(trace) + [Claimed(c.value.id, c.value.body, c.value.attempts, now)]
        && var name := key(c.value.id);
        && name in old(pending) && Eligible(old(pending)[name], now)
        && pending == old(pending)[name := JobQueue.Claim(old(pending)[name])]
        && forall k :: k in old(pending) && Eligible(old(pending)[k], now) ==> name <= k
    {
      hide Run, Step, DiskOk, Meaning;
      var todo := pending.Keys;
      while todo != {}
        invariant Valid() && pending == old(pending) && trace == old(trace) && todo <= pending.Keys
        invariant forall k :: k in pending && k !in todo ==> !Eligible(pending[k], now)
        decreases |todo|
      {
        var name := FirstName(todo);
        var record := pending[name];
        if Eligible(record, now) {
          ClaimFile(retryDelayMs, key, Here(), name, now);
          KeyOf(key, Here(), name);
          pending := pending[name := JobQueue.Claim(record)];
          Log(Claimed(record.identity.id, record.body, record.attempts + 1, now));
          return Some(Ticket(record.identity.id, record.identity.deployment, record.body, record.attempts + 1));
        }
        todo := todo - {name};
      }
      NothingHappens(retryDelayMs, key, Here(), Identity("", "", ""));
      Log(Idle);
      return None;
    }

    /** `finish` with a retry outcome. */
    method FinishRetry(id: Id, now: int) returns (r: Ended)
      requires Valid() && up
      modifies this`pending, this`trace, this`states
      ensures Valid() && r != Stopped
      ensures r == Done <==>
        key(id) in old(pending) && old(pending)[key(id)].identity.id == id && old(pending)[key(id)].status == Running
      ensures r == Done ==>
        && trace == old(trace) + [Retried(id, now)]
        && pending == old(pending)[key(id) := Reschedule(old(pending)[key(id)], retryDelayMs, now)]
      ensures r != Done ==> trace == old(trace) && pending == old(pending)
    {
      hide Run, Step, DiskOk, Meaning;
      var name := key(id);
      if name !in pending || pending[name].identity.id != id || pending[name].status != Running {
        return StateConflict;
      }
      RetryFile(retryDelayMs, key, Here(), name, now);
      pending := pending[name := Reschedule(pending[name], retryDelayMs, now)];
      Log(Retried(id, now));
      return Done;
    }

    /** `finish` with a terminal outcome: archive first, then remove; the process may stop in between. */
    method FinishTerminal(id: Id) returns (r: Ended)
      requires Valid() && up
      modifies this
      ensures Valid()
      ensures r == StateConflict <==>
        !(key(id) in old(pending) && old(pending)[key(id)].identity.id == id && old(pending)[key(id)].status == Running)
      ensures r == StateConflict ==> trace == old(trace) && pending == old(pending) && archive == old(archive) && up
      ensures r == Done ==> up && trace == old(trace) + [Archived(id), Removed(id)] && pending == old(pending) - {key(id)}
      ensures r == Stopped ==> !up && trace == old(trace) + [Archived(id), Crashed] && pending == old(pending)
      ensures r != StateConflict ==> key(id) in old(pending) &&
                                     archive == old(archive)[key(id) := old(pending)[key(id)].(status := Terminal)]
    {
      hide Run, Step, DiskOk, Meaning;
      var name := key(id);
      if name !in pending || pending[name].identity.id != id || pending[name].status != Running {
        return StateConflict;
      }
      ArchiveFile(retryDelayMs, key, Here(), name);
      ghost var s := Meaning(key, Disk(pending - {name}, archive[name := pending[name].(status := Terminal)], true));
      archive := archive[name := pending[name].(status := Terminal)];
      RunExtends(retryDelayMs, trace, states, Archived(id), s);
      trace, states := trace + [Archived(id)], states + [s];
      if * {
        up := false;
        CrashStep(retryDelayMs, s);
        Log(Crashed);
        assert trace == old(trace) + [Archived(id), Crashed];
        return Stopped;
      }
      pending := pending - {name};
      Log(Removed(id));
      assert trace == old(trace) + [Archived(id), Removed(id)];
      return Done;
    }
  }

  lemma KeyOf(key: Id -> nat, d: Disk, k: nat)
    requires DiskOk(key, d) && k in d.pending
    ensures key(d.pending[k].identity.id) == k
  {
  }

  lemma CrashStep(base: nat, s: State)
    ensures Step(base, s, Crashed, s.(up := false))
  {
  }
}
