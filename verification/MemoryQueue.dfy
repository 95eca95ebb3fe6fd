/** The in-memory queue: the same protocol over two insertion-ordered maps, each call one step. */
module MemoryQueue {
  import opened JobQueue
  import opened Options
  import opened FileQueue

  predicate Distinct<T(==)>(s: seq<T>)
  {
    s == [] || (s[0] !in s[1..] && Distinct(s[1..]))
  }

  function Without<T(==)>(s: seq<T>, x: T): (r: seq<T>)
  {
    if s == [] then []
    else if s[0] == x then Without(s[1..], x)
    else [s[0]] + Without(s[1..], x)
  }

  lemma {:induction false} WithoutMember<T>(s: seq<T>, x: T, y: T)
    ensures y in Without(s, x) <==> y in s && y != x
  {
    if s != [] {
      WithoutMember(s[1..], x, y);
      assert y in s <==> y == s[0] || y in s[1..];
    }
  }

  lemma {:induction false} WithoutDistinct<T>(s: seq<T>, x: T)
    requires Distinct(s)
    ensures Distinct(Without(s, x))
  {
    if s != [] {
      WithoutDistinct(s[1..], x);
      WithoutMember(s[1..], x, s[0]);
      assert s[0] != x ==> Without(s, x)[1..] == Without(s[1..], x);
    }
  }

  lemma {:induction false} DistinctAppend<T>(s: seq<T>, x: T)
    requires Distinct(s) && x !in s
    ensures Distinct(s + [x])
  {
    if s == [] {
      assert s + [x] == [x] && [x][1..] == [];
    } else {
      DistinctAppend(s[1..], x);
      assert (s + [x])[1..] == s[1..] + [x];
    }
  }

  lemma {:induction false} DistinctAt<T>(s: seq<T>, i: nat, j: nat)
    requires Distinct(s) && i < j < |s|
    ensures s[i] != s[j]
  {
    if i == 0 {
      assert s[j] == s[1..][j - 1];
    } else {
      DistinctAt(s[1..], i - 1, j - 1);
    }
  }

  /** The keys of a JavaScript Map in insertion order. */
  ghost predicate Ordered(order: seq<Id>, pending: map<Id, Record>)
  {
    Distinct(order) && forall id :: id in pending <==> id in order
  }

  ghost predicate Named(m: map<Id, Record>)
  {
    forall id :: id in m ==> m[id].identity.id == id
  }

  function Rested(r: Record): Record
  {
    if r.status == Running then r.(status := Pending) else r
  }

  lemma OrderedDelete(order: seq<Id>, pending: map<Id, Record>, id: Id)
    requires Ordered(order, pending)
    ensures Ordered(Without(order, id), pending - {id})
  {
    WithoutDistinct(order, id);
    forall x: Id ensures x in Without(order, id) <==> x in order && x != id {
      WithoutMember(order, id, x);
    }
  }

  /** The jobs before position `k` have been put back; the others are as they were. */
  ghost predicate RestedUpTo(order: seq<Id>, before: map<Id, Record>, now: map<Id, Record>, k: nat)
  {
    && Ordered(order, before) && Ordered(order, now) && k <= |order|
    && forall i :: 0 <= i < |order| ==>
         && order[i] in before && order[i] in now
         && now[order[i]] == if i < k then Rested(before[order[i]]) else before[order[i]]
  }

  lemma NoneRested(order: seq<Id>, pending: map<Id, Record>)
    requires Ordered(order, pending)
    ensures RestedUpTo(order, pending, pending, 0)
  {
  }

  lemma RestOne(order: seq<Id>, before: map<Id, Record>, now: map<Id, Record>, k: nat)
    requires RestedUpTo(order, before, now, k) && k < |order|
    ensures order[k] in now
    ensures RestedUpTo(order, before, now[order[k] := Rested(now[order[k]])], k + 1)
  {
    hide Rested, Distinct;
    var now' := now[order[k] := Rested(now[order[k]])];
    forall i | 0 <= i < |order|
      ensures order[i] in before && order[i] in now' &&
        now'[order[i]] == if i < k + 1 then Rested(before[order[i]]) else before[order[i]]
    {
      if i < k {
        DistinctAt(order, i, k);
      } else if i > k {
        DistinctAt(order, k, i);
      }
    }
  }

  lemma AllRested(order: seq<Id>, before: map<Id, Record>, now: map<Id, Record>)
    requires RestedUpTo(order, before, now, |order|)
    ensures now.Keys == before.Keys
    ensures forall id :: id in now ==> now[id] == Rested(before[id]) && now[id].status != Running
  {
    hide Distinct;
  }

  lemma ReadyStep(base: nat, s: State)
    requires !s.up && forall id :: id in s.jobs ==> s.jobs[id].status != Running
    ensures Step(base, s, Ready, s.(up := true))
  {
  }

  class MemoryQueue {
    const retryDelayMs: nat
    var order: seq<Id>
    var pending: map<Id, Record>
    var archive: map<Id, Record>

    /** Whether claims handed out may still be outstanding; `initialize` ends them all. */
    ghost var up: bool
    ghost var trace: seq<Event>
    ghost var states: seq<State>

    ghost function Abs(): State
      reads this
    {
      State(pending, archive, up)
    }

    ghost predicate Maps()
      reads this
    {
      Ordered(order, pending) && Named(pending) && Named(archive)
    }

    ghost predicate Valid()
      reads this
    {
      && Maps()
      && Run(retryDelayMs, trace, states) && |states| == |trace| + 1
      && states[|trace|] == Abs()
      && pending.Keys !! archive.Keys
    }

    ghost method Log(e: Event)
      requires Maps() && pending.Keys !! archive.Keys
      requires Run(retryDelayMs, trace, states) && |states| == |trace| + 1
      requires Step(retryDelayMs, states[|trace|], e, Abs())
      modifies this`trace, this`states
      ensures Valid() && trace == old(trace) + [e]
    {
      hide Step;
      RunExtends(retryDelayMs, trace, states, e, Abs());
      trace, states := trace + [e], states + [Abs()];
    }

    constructor (retryDelayMs: nat)
      ensures Valid() && !up && pending == map[] && archive == map[] && trace == []
      ensures this.retryDelayMs == retryDelayMs
    {
      this.retryDelayMs := retryDelayMs;
      order, pending, archive, up := [], map[], map[], false;
      trace, states := [], [EMPTY];
    }

    /** `initialize`: every running job goes back to pending. */
    method Initialize()
      requires Valid()
      modifies this`pending, this`up, this`trace, this`states
      ensures Valid() && up && old(trace) <= trace
      ensures pending.Keys == old(pending).Keys
      ensures forall id :: id in pending ==> pending[id] == Rested(old(pending)[id])
    {
      hide Run, Step, RestedUpTo, Rested;
      NoneRested(order, pending);
      if up {
        up := false;
        CrashStep(retryDelayMs, states[|trace|]);
        Log(Crashed);
      }
      for k := 0 to |order|
        invariant Valid() && !up && old(trace) <= trace
        invariant RestedUpTo(order, old(pending), pending, k)
      {
        RestOne(order, old(pending), pending, k);
        Rest(order[k]);
      }
      AllRested(order, old(pending), pending);
      ReadyStep(retryDelayMs, Abs());
      up := true;
      Log(Ready);
    }

    /** One turn of the loop above. */
    method Rest(id: Id)
      requires Valid() && !up && id in pending
      modifies this`pending, this`trace, this`states
      ensures Valid() && old(trace) <= trace && pending == old(pending)[id := Rested(old(pending)[id])]
    {
      hide Run, RetryDelay;
      if pending[id].status == Running {
        pending := pending[id := pending[id].(status := Pending)];
        Log(Recovered(id));
      } else {
        assert pending == pending[id := pending[id]];
      }
    }

    method Enqueue(identity: Identity, body: Body, now: int) returns (d: Delivery)
      requires Valid() && up
      modifies this`pending, this`order, this`trace, this`states
      ensures Valid()
      ensures d == Conflict <==>
        (identity.id in archive && archive[identity.id].identity != identity) ||
        (identity.id in old(pending) && old(pending)[identity.id].identity != identity)
      ensures d == NewJob ==> trace == old(trace) + [Accepted(identity, body, now)]
      ensures d == DuplicateJob ==>
        trace == old(trace) + [if identity.id in archive then Duplicate(identity) else Redelivered(identity, body, now)]
      ensures d == Conflict ==> trace == old(trace) + [Refused(identity)] && pending == old(pending)
    {
      hide Run, RetryDelay;
      var id := identity.id;
      if id in archive {
        if archive[id].identity != identity {
          Log(Refused(identity));
          return Conflict;
        }
        Log(Duplicate(identity));
        return DuplicateJob;
      }
      if id in pending {
        if pending[id].identity != identity {
          Log(Refused(identity));
          return Conflict;
        }
        pending := pending[id := Redeliver(pending[id], body, now)];
        Log(Redelivered(identity, body, now));
        return DuplicateJob;
      }
      DistinctAppend(order, id);
      order := order + [id];
      pending := pending[id := Fresh(identity, body, now)];
      Log(Accepted(identity, body, now));
      return NewJob;
    }

    /** `claim`: the first due job in insertion order; the clock is read anew for every record. */
    method Claim(clock: Id -> int) returns (c: Option<Ticket>)
      requires Valid() && up
      modifies this`pending, this`trace, this`states
      ensures Valid()
      ensures c.None? ==>
        && trace == old(trace) + [Idle] && pending == old(pending)
        && forall id :: id in pending ==> !Eligible(pending[id], clock(id))
      ensures c.Some? ==>
        && trace == old(trace) + [Claimed(c.value.id, c.value.body, c.value.attempts, clock(c.value.id))]
        && c.value.id in old(pending) && Eligible(old(pending)[c.value.id], clock(c.value.id))
        && pending == old(pending)[c.value.id := JobQueue.Claim(old(pending)[c.value.id])]
        && exists k :: 0 <= k < |order| && order[k] == c.value.id &&
             forall i :: 0 <= i < k ==> order[i] in old(pending) && !Eligible(old(pending)[order[i]], clock(order[i]))
    {
      hide Run, RetryDelay;
      for k := 0 to |order|
        invariant Valid() && pending == old(pending) && trace == old(trace)
        invariant forall i :: 0 <= i < k ==> order[i] in pending && !Eligible(pending[order[i]], clock(order[i]))
      {
        var id := order[k];
        var record, now := pending[id], clock(id);
        if Eligible(record, now) {
          pending := pending[id := JobQueue.Claim(record)];
          Log(Claimed(id, record.body, record.attempts + 1, now));
          return Some(Ticket(id, record.identity.deployment, record.body, record.attempts + 1));
        }
      }
      Log(Idle);
      return None;
    }

    method FinishRetry(id: Id, now: int) returns (r: Ended)
      requires Valid() && up
      modifies this`pending, this`trace, this`states
      ensures Valid() && r != Stopped
      ensures r == Done <==> id in old(pending) && old(pending)[id].status == Running
      ensures r == Done ==>
        && trace == old(trace) + [Retried(id, now)]
        && pending == old(pending)[id := Reschedule(old(pending)[id], retryDelayMs, now)]
      ensures r != Done ==> trace == old(trace) && pending == old(pending)
    {
      hide Run, RetryDelay;
      if id !in pending || pending[id].status != Running {
        return StateConflict;
      }
      pending := pending[id := Reschedule(pending[id], retryDelayMs, now)];
      Log(Retried(id, now));
      return Done;
    }

    method FinishTerminal(id: Id) returns (r: Ended)
      requires Valid() && up
      modifies this`pending, this`order, this`archive, this`trace, this`states
      ensures Valid() && r != Stopped
      ensures r == Done <==> id in old(pending) && old(pending)[id].status == Running
      ensures r == Done ==>
        && trace == old(trace) + [Archived(id)]
        && pending == old(pending) - {id} && archive == old(archive)[id := old(pending)[id].(status := Terminal)]
      ensures r != Done ==> trace == old(trace) && pending == old(pending) && archive == old(archive)
    {
      hide Run, RetryDelay, Ordered;
      if id !in pending || pending[id].status != Running {
        return StateConflict;
      }
      var record := pending[id];
      OrderedDelete(order, pending, id);
      order, pending := Without(order, id), pending - {id};
      archive := archive[id := record.(status := Terminal)];
      Log(Archived(id));
      return Done;
    }
  }
}
