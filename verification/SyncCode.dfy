/** `Sync` from the staged draft on, as the requests it makes, over a store that others use as well. */
module SyncCode {
  import opened Bytes
  import opened Options
  import opened Manifests
  import opened Drafts
  import opened WorkspaceRoundTrip
  import opened Publishing

  const GRANT_BATCH: nat := 8

  /** How often a node has sent an archive. */
  ghost function Sends(trace: seq<Event>, n: Node): nat
  {
    if trace == [] then 0
    else
      var e := trace[|trace| - 1];
      Sends(trace[..|trace| - 1], n) + if e.Send? && e.n == n then 1 else 0
  }

  lemma SendsGrow(trace: seq<Event>, e: Event, n: Node)
    ensures Sends(trace + [e], n) == Sends(trace, n) + if e.Send? && e.n == n then 1 else 0
  {
    assert (trace + [e])[..|trace|] == trace;
  }

  /** An uploading node. */
  ghost predicate Busy(s: State, n: Node, staging: Staging, done: set<nat>)
  {
    AgentAt(s, n) == Agent(Some(staging), Uploading(done))
  }

  predicate Elsewhere(e: Event, n: Node)
  {
    match e
    case Foreign(_, _) => true
    case Land(_) => true
    case _ => e.n != n
  }

  ghost predicate AnyOf(done: set<nat>, uploads: seq<nat>, k: nat)
    requires k <= |uploads|
  {
    forall j :: 0 <= j < k ==> uploads[j] in done
  }

  lemma ArchiveAt(s: State, n: Node, staging: Staging, done: set<nat>, i: nat)
    requires Busy(s, n, staging, done) && i < |staging.draft.archives|
    ensures At(AgentAt(s, n), i) == Some(staging.draft.archives[i])
  {
  }

  lemma DoneStep(w: World, s: State, n: Node, staging: Staging, done: set<nat>, i: nat, e: Event)
    requires Busy(s, n, staging, done) && i < |staging.draft.archives|
    requires e == Omitted(n, i) || e == Matched(n, i) || e == Owned(n, i) || (e.Created? && e.n == n && e.i == i)
    requires Next(w, s, e).Some?
    ensures Busy(Next(w, s, e).value, n, staging, done + {i})
  {
    hide Stored;
  }

  class Site {
    const w: World
    var state: State
    ghost var trace: seq<Event>
    ghost var states: seq<State>

    ghost predicate Valid()
      reads this
    {
      Run(w, trace, states) && |states| == |trace| + 1 && states[|trace|] == state
    }

    constructor (w: World)
      ensures Valid() && this.w == w && trace == []
    {
      this.w, state := w, EMPTY;
      trace, states := [], [EMPTY];
    }

    method Act(e: Event)
      requires Valid() && Next(w, state, e).Some?
      modifies this
      ensures Valid() && trace == old(trace) + [e] && states == old(states) + [state] && Next(w, old(state), e) == Some(state)
      ensures forall n :: Sends(trace, n) == Sends(old(trace), n) + if e.Send? && e.n == n then 1 else 0
    {
      hide Next;
      forall n ensures Sends(trace + [e], n) == Sends(trace, n) + if e.Send? && e.n == n then 1 else 0 {
        SendsGrow(trace, e, n);
      }
      var next := Next(w, state, e).value;
      RunExtends(w, trace, states, e, next);
      state := next;
      trace, states := trace + [e], states + [next];
    }

    /** Whatever other nodes and the store do in the meantime. */
    method Others(n: Node)
      requires Valid()
      modifies this
      ensures Valid() && old(trace) <= trace && AgentAt(state, n) == AgentAt(old(state), n)
      ensures old(state).sent <= state.sent && Sends(trace, n) == Sends(old(trace), n)
    {
      hide Run, Advance;
      var steps :| steps >= 0;
      for i := 0 to steps
        invariant Valid() && old(trace) <= trace && AgentAt(state, n) == AgentAt(old(state), n)
        invariant old(state).sent <= state.sent && Sends(trace, n) == Sends(old(trace), n)
      {
        var e: Event := *;
        if Elsewhere(e, n) && Next(w, state, e).Some? {
          Act(e);
        }
      }
    }

    /** `transfer.Upload` of what the archive file holds: created, found to be there and equal, or an error. */
    method Upload(n: Node, i: nat, ghost staging: Staging, ghost done: set<nat>) returns (ok: bool)
      requires Valid() && Busy(state, n, staging, done) && i < |staging.draft.archives|
      modifies this
      ensures Valid() && old(trace) <= trace && Busy(state, n, staging, if ok then done + {i} else done)
      ensures Sends(trace, n) == Sends(old(trace), n) + 1
    {
      hide Run, Stored, Sends;
      ArchiveAt(state, n, staging, done, i);
      var b := At(AgentAt(state, n), i).value.descriptor;
      var data: Bytes := *;
      Act(Send(n, i, data));
      Others(n);
      ArchiveAt(state, n, staging, done, i);
      var heard: bool, created: bool := *, *;
      if heard && created && b.key in state.store && state.store[b.key] == data {
        if |data| != b.compressedSize || w.lib.sha256(data) != b.sha256 {
          return false;
        }
        DoneStep(w, state, n, staging, done, i, Created(n, i, data));
        Act(Created(n, i, data));
        return true;
      }
      if heard && Stored(w.lib, state.store, b) {
        DoneStep(w, state, n, staging, done, i, Matched(n, i));
        Act(Matched(n, i));
        return true;
      }
      return false;
    }

    /**
     `uploadArchiveWithRefresh`: later attempts ask for a new grant, which may turn out to be unnecessary. An archive is
     sent at most three times.
     */
    method UploadArchive(n: Node, i: nat, ghost staging: Staging, ghost done: set<nat>) returns (ok: bool)
      requires Valid() && Busy(state, n, staging, done) && i < |staging.draft.archives|
      modifies this
      ensures Valid() && old(trace) <= trace && Busy(state, n, staging, if ok then done + {i} else done)
      ensures Sends(trace, n) <= Sends(old(trace), n) + 3
    {
      hide Run, Stored, Next, Sends;
      for attempt := 0 to 3
        invariant Valid() && old(trace) <= trace && Busy(state, n, staging, done)
        invariant Sends(trace, n) == Sends(old(trace), n) + attempt
      {
        if attempt > 0 {
          Others(n);
          var refused: bool, omitted: bool := *, *;
          if refused {
            return false;
          }
          if omitted {
            ok := Skip(n, i, staging, done);
            if ok {
              return true;
            }
          }
        }
        var stored := Upload(n, i, staging, done);
        if stored {
          return true;
        }
      }
      return false;
    }

    /** A grant the control plane leaves out: it has seen the object of this descriptor. */
    method Skip(n: Node, i: nat, ghost staging: Staging, ghost done: set<nat>) returns (ok: bool)
      requires Valid() && Busy(state, n, staging, done) && i < |staging.draft.archives|
      modifies this
      ensures Valid() && old(trace) <= trace && Busy(state, n, staging, if ok then done + {i} else done)
      ensures Sends(trace, n) == Sends(old(trace), n)
    {
      hide Run, Stored, Sends;
      ArchiveAt(state, n, staging, done, i);
      ok := Stored(w.lib, state.store, At(AgentAt(state, n), i).value.descriptor);
      if ok {
        DoneStep(w, state, n, staging, done, i, Omitted(n, i));
        Act(Omitted(n, i));
      }
    }

    /** Archives without a staged file are the compiler's; the others are to be uploaded. */
    method SelectUploads(n: Node, staging: Staging) returns (uploads: seq<nat>, ghost done: set<nat>)
      requires Valid() && Busy(state, n, staging, {})
      modifies this
      ensures Valid() && old(trace) <= trace && Busy(state, n, staging, done)
      ensures forall j :: 0 <= j < |uploads| ==> uploads[j] < |staging.draft.archives|
      ensures forall i :: 0 <= i < |staging.draft.archives| ==> i in done || i in uploads
    {
      hide Run;
      uploads, done := [], {};
      var archives := staging.draft.archives;
      for i := 0 to |archives|
        invariant Valid() && old(trace) <= trace && Busy(state, n, staging, done)
        invariant forall j :: 0 <= j < |uploads| ==> uploads[j] < |archives|
        invariant forall k :: 0 <= k < i ==> k in done || k in uploads
      {
        if archives[i].staged.None? {
          ArchiveAt(state, n, staging, done, i);
          DoneStep(w, state, n, staging, done, i, Owned(n, i));
          Act(Owned(n, i));
          done := done + {i};
        } else {
          uploads := uploads + [i];
          assert uploads[|uploads| - 1] == i;
        }
      }
    }

    /** The control plane leaves out no grant for an object it has not seen. */
    method UploadOne(n: Node, i: nat, granted: bool, ghost staging: Staging, ghost done: set<nat>) returns (ok: bool)
      requires Valid() && Busy(state, n, staging, done) && i < |staging.draft.archives|
      modifies this
      ensures Valid() && old(trace) <= trace && Busy(state, n, staging, if ok then done + {i} else done)
    {
      hide Run, Next;
      ok := false;
      if !granted {
        ok := Skip(n, i, staging, done);
      }
      if !ok {
        ok := UploadArchive(n, i, staging, done);
      }
    }

    /** Grants are asked for in batches; an archive without a grant is published already. */
    method UploadAll(n: Node, staging: Staging) returns (ok: bool, ghost done: set<nat>)
      requires Valid() && Busy(state, n, staging, {})
      modifies this
      ensures Valid() && old(trace) <= trace && Busy(state, n, staging, done) && (ok ==> AllDone(done, staging.draft))
    {
      hide Run, Next, Busy;
      var uploads;
      uploads, done := SelectUploads(n, staging);
      var start := 0;
      while start < |uploads|
        invariant start <= |uploads| && Valid() && old(trace) <= trace && Busy(state, n, staging, done)
        invariant forall i :: 0 <= i < |staging.draft.archives| ==> i in done || i in uploads
        invariant AnyOf(done, uploads, start)
      {
        var end := if start + GRANT_BATCH > |uploads| then |uploads| else start + GRANT_BATCH;
        var refused: bool := *;
        if refused {
          return false, done;
        }
        for k := start to end
          invariant Valid() && old(trace) <= trace && Busy(state, n, staging, done)
          invariant forall i :: 0 <= i < |staging.draft.archives| ==> i in done || i in uploads
          invariant AnyOf(done, uploads, k)
        {
          var granted: bool := *;
          var stored := UploadOne(n, uploads[k], granted, staging, done);
          if !stored {
            return false, done;
          }
          done := done + {uploads[k]};
        }
        start := end;
      }
      return true, done;
    }

    /** `uploadBytes` of the manifest, and what follows it; nothing was sent before this. */
    method Publish(n: Node, staging: Staging, ghost done: set<nat>) returns (ok: bool)
      requires Valid() && Busy(state, n, staging, done) && AllDone(done, staging.draft)
      modifies this
      ensures Valid() && old(trace) < trace
      ensures ok ==> trace[|trace| - 1] == Done(n) && AgentAt(states[|trace| - 1], n).staging == Some(staging)
      ensures ok ==> AgentAt(state, n) == Agent(None, Idle)
      ensures !ok ==> AgentAt(state, n).staging == Some(staging)
    {
      hide Run, Stored;
      Act(Announce(n));
      assert AgentAt(state, n) == Agent(Some(staging), Announcing);
      for attempt := 0 to 3
        invariant Valid() && old(trace) < trace && AgentAt(state, n) == Agent(Some(staging), Announcing)
      {
        Others(n);
        var heard: bool := *;
        var bytes := w.write(staging.draft.manifest);
        if heard && staging.key in state.store && |state.store[staging.key]| == |bytes| &&
           w.lib.sha256(state.store[staging.key]) == w.lib.sha256(bytes) {
          ghost var before := state;
          Act(Done(n));
          assert states[|trace| - 1] == before;
          return true;
        }
      }
      return false;
    }

    /**
     A staged draft is taken up again, and only without one a fresh draft is staged. Success is reported only
     after the draft's own manifest was seen in the store.
     */
    method Sync(n: Node, built: Staging) returns (ok: bool)
      requires Valid() && AgentAt(state, n).place == Idle
      requires AgentAt(state, n).staging.None? ==>
        Shaped(built.draft) && IsManifestKey(built.key) && OwnedStored(w, state.store, built.draft)
      modifies this
      ensures Valid() && old(trace) < trace && AgentAt(state, n).place == Idle
      ensures var staging := if AgentAt(old(state), n).staging.Some? then AgentAt(old(state), n).staging.value else built;
        if ok then trace[|trace| - 1] == Done(n) && AgentAt(states[|trace| - 1], n).staging == Some(staging)
        else AgentAt(state, n).staging == Some(staging)
    {
      hide Run, Shaped, OwnedStored, IsManifestKey, AllDone;
      var staged := AgentAt(state, n).staging;
      var staging := if staged.Some? then staged.value else built;
      Act(if staged.Some? then Resume(n) else Begin(n, built));
      assert Busy(state, n, staging, {});
      ghost var done;
      ok, done := UploadAll(n, staging);
      if ok {
        ok := Publish(n, staging, done);
      }
      if !ok {
        Act(Stop(n));
      }
    }
  }
}
