/**
 Sync as a protocol between any number of nodes and a create-only object store: stage a draft, upload its
 archives, and only then its manifest. A node may stop anywhere and resumes from its staged draft; a request
 that was sent may take effect at any later time; others create objects too.
 */
module Publishing {
  import opened Bytes
  import opened Options
  import opened Layers
  import opened Keys
  import opened Manifests
  import opened Drafts
  import opened Acceptance
  import opened Restores
  import opened WorkspaceRoundTrip
  import opened Json
  import opened Rereading
  import Text

  /** One sync command on one node. */
  type Node = nat

  datatype World = World(lib: Library, write: Manifest -> Bytes, read: Bytes -> Option<Manifest>)

  /** The durable sync descriptor: the draft, and the key its manifest goes to. */
  datatype Staging = Staging(draft: Draft, key: string)

  /** `done` are the archives known to be stored. */
  datatype Place = Idle | Uploading(done: set<nat>) | Announcing

  datatype Agent = Agent(staging: Option<Staging>, place: Place)

  datatype Request = Request(key: string, data: Bytes)

  datatype State = State(store: Store, sent: set<Request>, agents: map<Node, Agent>)

  const EMPTY := State(map[], {}, map[])

  datatype Event =
    | Foreign(key: string, data: Bytes)
    | Land(request: Request)
    | Begin(n: Node, staging: Staging)
    | Resume(n: Node)
    | Stop(n: Node)
    | Owned(n: Node, i: nat)
    | Omitted(n: Node, i: nat)
    | Send(n: Node, i: nat, data: Bytes)
    | Created(n: Node, i: nat, data: Bytes)
    | Matched(n: Node, i: nat)
    | Announce(n: Node)
    | Done(n: Node)

  const MANIFEST_SUFFIX := "manifest.json"

  predicate IsManifestKey(key: string)
  {
    HasSuffix(key, MANIFEST_SUFFIX)
  }

  /**
   What a draft owes: archives go to archive keys, the manifest lists nothing that is not an archive, and all of it but
   the paths is text.
   */
  predicate Shaped(draft: Draft)
  {
    && (forall i :: 0 <= i < |draft.archives| ==> HasSuffix(draft.archives[i].descriptor.key, ARCHIVE_SUFFIX))
    && (forall b :: b in Descriptors(draft.manifest) ==> b in DescriptorsOf(draft.archives))
    && PlainManifest(draft.manifest)
  }

  predicate OwnedStored(w: World, store: Store, draft: Draft)
  {
    forall i :: 0 <= i < |draft.archives| && draft.archives[i].staged.None? ==> Stored(w.lib, store, draft.archives[i].descriptor)
  }

  /** The i-th archive of an uploading node. */
  function At(a: Agent, i: nat): Option<Archive>
  {
    if a.staging.Some? && a.place.Uploading? && i < |a.staging.value.draft.archives| then Some(a.staging.value.draft.archives[i])
    else None
  }

  function Further(a: Agent, i: nat): Agent
    requires a.place.Uploading?
  {
    a.(place := Uploading(a.place.done + {i}))
  }

  predicate AllDone(done: set<nat>, draft: Draft)
  {
    forall i :: 0 <= i < |draft.archives| ==> i in done
  }

  /** What becomes of a node by an event of its own, or `None` where that cannot happen. */
  function Advance(w: World, s: State, a: Agent, e: Event): Option<Agent>
  {
    match e
    case Foreign(_, _) => None
    case Land(_) => None
    case Begin(_, staging) =>
      if a.staging.None? && a.place == Idle && Shaped(staging.draft) && IsManifestKey(staging.key) && OwnedStored(w, s.store, staging.draft)
      then Some(Agent(Some(staging), Uploading({}))) else None
    case Resume(_) => if a.staging.Some? && a.place == Idle then Some(a.(place := Uploading({}))) else None
    case Stop(_) => Some(a.(place := Idle))
    case Owned(_, i) => if At(a, i).Some? && At(a, i).value.staged.None? then Some(Further(a, i)) else None
    case Omitted(_, i) =>
      if At(a, i).Some? && Stored(w.lib, s.store, At(a, i).value.descriptor) then Some(Further(a, i)) else None
    case Send(_, i, data) => if At(a, i).Some? then Some(a) else None
    case Created(_, i, data) =>
      if At(a, i).Some? && var b := At(a, i).value.descriptor;
           Request(b.key, data) in s.sent && b.key in s.store && s.store[b.key] == data &&
           |data| == b.compressedSize && w.lib.sha256(data) == b.sha256
      then Some(Further(a, i)) else None
    case Matched(_, i) =>
      if At(a, i).Some? && Stored(w.lib, s.store, At(a, i).value.descriptor) then Some(Further(a, i)) else None
    case Announce(_) =>
      if a.staging.Some? && a.place.Uploading? && AllDone(a.place.done, a.staging.value.draft) then Some(a.(place := Announcing)) else None
    case Done(_) =>
      if a.staging.Some? && a.place == Announcing && Visible(w, s.store, a.staging.value) then Some(Agent(None, Idle)) else None
  }

  /** The manifest's object has the size and the digest of what was to be written. */
  predicate Visible(w: World, store: Store, staging: Staging)
  {
    var bytes := w.write(staging.draft.manifest);
    staging.key in store && |store[staging.key]| == |bytes| && w.lib.sha256(store[staging.key]) == w.lib.sha256(bytes)
  }

  function Put(store: Store, r: Request): Store
  {
    if r.key in store then store else store[r.key := r.data]
  }

  function AgentAt(s: State, n: Node): Agent
  {
    if n in s.agents then s.agents[n] else Agent(None, Idle)
  }

  function NewRequests(w: World, a: Agent, e: Event): set<Request>
  {
    match e
    case Send(_, i, data) => if At(a, i).Some? then {Request(At(a, i).value.descriptor.key, data)} else {}
    case Announce(_) => if a.staging.Some? then {Request(a.staging.value.key, w.write(a.staging.value.draft.manifest))} else {}
    case _ => {}
  }

  function Next(w: World, s: State, e: Event): Option<State>
  {
    match e
    case Foreign(key, data) => if IsManifestKey(key) then None else Some(s.(store := Put(s.store, Request(key, data))))
    case Land(request) => if request in s.sent then Some(s.(store := Put(s.store, request))) else None
    case _ =>
      var a := AgentAt(s, e.n);
      match Advance(w, s, a, e)
      case None => None
      case Some(b) => Some(State(s.store, s.sent + NewRequests(w, a, e), s.agents[e.n := b]))
  }

  ghost predicate Run(w: World, trace: seq<Event>, states: seq<State>)
  {
    && |states| == |trace| + 1
    && states[0] == EMPTY
    && forall i :: 0 <= i < |trace| ==> Next(w, states[i], trace[i]) == Some(states[i + 1])
  }

  lemma RunExtends(w: World, trace: seq<Event>, states: seq<State>, e: Event, t: State)
    requires Run(w, trace, states) && Next(w, states[|trace|], e) == Some(t)
    ensures Run(w, trace + [e], states + [t])
  {
    hide Next;
    var trace', states' := trace + [e], states + [t];
    forall i | 0 <= i < |trace'| ensures Next(w, states'[i], trace'[i]) == Some(states'[i + 1]) {
      if i < |trace| {
        assert states'[i] == states[i] && states'[i + 1] == states[i + 1] && trace'[i] == trace[i];
      }
    }
  }

  // ---------------------------------------------------------------- objects stay

  ghost predicate Grows(before: Store, after: Store)
  {
    forall k :: k in before ==> k in after && after[k] == before[k]
  }

  lemma NextGrows(w: World, s: State, e: Event)
    requires Next(w, s, e).Some?
    ensures Grows(s.store, Next(w, s, e).value.store)
  {
    hide Advance;
  }

  lemma {:induction false} RunGrows(w: World, trace: seq<Event>, states: seq<State>, n: nat, m: nat)
    requires Run(w, trace, states) && n <= m <= |trace|
    ensures Grows(states[n].store, states[m].store)
    decreases m
  {
    hide Next;
    if n < m {
      RunGrows(w, trace, states, n, m - 1);
      assert Next(w, states[m - 1], trace[m - 1]) == Some(states[m - 1 + 1]);
      NextGrows(w, states[m - 1], trace[m - 1]);
    }
  }

  lemma StoredGrows(lib: Library, before: Store, after: Store, b: Blob)
    requires Grows(before, after) && Stored(lib, before, b)
    ensures Stored(lib, after, b)
  {
  }

  // ---------------------------------------------------------------- a visible manifest is complete

  /** Every archive a manifest lists is there with its size and digest. */
  ghost predicate Complete(lib: Library, store: Store, m: Manifest)
  {
    forall b :: b in Descriptors(m) ==> Stored(lib, store, b)
  }

  /** Whoever reads a manifest from under a manifest key finds every archive it lists. */
  ghost predicate ReadsComplete(w: World, store: Store, key: string, data: Bytes)
  {
    IsManifestKey(key) && w.read(data).Some? ==> Complete(w.lib, store, w.read(data).value)
  }

  ghost predicate AgentSound(w: World, store: Store, a: Agent)
  {
    a.staging.Some? ==>
      var staging := a.staging.value;
      && Shaped(staging.draft) && IsManifestKey(staging.key) && OwnedStored(w, store, staging.draft)
      && forall i :: 0 <= i < |staging.draft.archives| && KnownStored(a.place, i) ==>
           Stored(w.lib, store, staging.draft.archives[i].descriptor)
  }

  predicate KnownStored(place: Place, i: nat)
  {
    place == Announcing || (place.Uploading? && i in place.done)
  }

  ghost predicate Sound(w: World, s: State)
  {
    && (forall key :: key in s.store ==> ReadsComplete(w, s.store, key, s.store[key]))
    && (forall r :: r in s.sent ==> ReadsComplete(w, s.store, r.key, r.data))
    && (forall n :: n in s.agents ==> AgentSound(w, s.store, s.agents[n]))
  }

  /** Decoding gives back what was encoded, with the replacement character for what is not text. */
  ghost predicate JsonReads(w: World)
  {
    forall m :: PlainManifest(m) ==> w.read(w.write(m)) == Some(Scrubbed(m))
  }

  lemma ScrubbedComplete(lib: Library, store: Store, m: Manifest)
    requires Complete(lib, store, m)
    ensures Complete(lib, store, Scrubbed(m))
  {
    hide Scrubbed, Descriptors, ScrubPaths;
    ScrubbedLists(m);
    var ds := Descriptors(m);
    forall b | b in Descriptors(Scrubbed(m)) ensures Stored(lib, store, b) {
      var i :| 0 <= i < |ds| && ScrubAll(ds)[i] == b;
      assert ds[i] in ds && b == ScrubBlob(ds[i]);
    }
  }

  lemma ReadsCompleteGrows(w: World, before: Store, after: Store, key: string, data: Bytes)
    requires Grows(before, after) && ReadsComplete(w, before, key, data)
    ensures ReadsComplete(w, after, key, data)
  {
    hide Stored, Grows, Descriptors;
    if IsManifestKey(key) && w.read(data).Some? {
      forall b | b in Descriptors(w.read(data).value) ensures Stored(w.lib, after, b) {
        StoredGrows(w.lib, before, after, b);
      }
    }
  }

  lemma AgentSoundGrows(w: World, before: Store, after: Store, a: Agent)
    requires Grows(before, after) && AgentSound(w, before, a)
    ensures AgentSound(w, after, a)
  {
    hide Stored, Grows, Shaped, IsManifestKey;
    if a.staging.Some? {
      var archives := a.staging.value.draft.archives;
      forall i | 0 <= i < |archives| && Stored(w.lib, before, archives[i].descriptor) ensures Stored(w.lib, after, archives[i].descriptor) {
        StoredGrows(w.lib, before, after, archives[i].descriptor);
      }
    }
  }

  lemma PutSound(w: World, s: State, r: Request)
    requires Sound(w, s) && ReadsComplete(w, s.store, r.key, r.data)
    ensures Sound(w, s.(store := Put(s.store, r)))
  {
    hide ReadsComplete, AgentSound, Grows;
    var store := Put(s.store, r);
    assert Grows(s.store, store) by {
      PutGrows(s.store, r);
    }
    forall key | key in store ensures ReadsComplete(w, store, key, store[key]) {
      assert key in s.store ==> ReadsComplete(w, s.store, key, s.store[key]);
      ReadsCompleteGrows(w, s.store, store, key, store[key]);
    }
    forall x | x in s.sent ensures ReadsComplete(w, store, x.key, x.data) {
      ReadsCompleteGrows(w, s.store, store, x.key, x.data);
    }
    forall n | n in s.agents ensures AgentSound(w, store, s.agents[n]) {
      AgentSoundGrows(w, s.store, store, s.agents[n]);
    }
  }

  lemma PutGrows(store: Store, r: Request)
    ensures Grows(store, Put(store, r))
  {
  }

  lemma NotBoth(key: string)
    ensures !(HasSuffix(key, ARCHIVE_SUFFIX) && IsManifestKey(key))
  {
    if HasSuffix(key, ARCHIVE_SUFFIX) {
      assert key[|key| - 1] == key[|key| - |ARCHIVE_SUFFIX|..][|ARCHIVE_SUFFIX| - 1] == 't';
      assert |MANIFEST_SUFFIX| <= |key| ==> key[|key| - |MANIFEST_SUFFIX|..][|MANIFEST_SUFFIX| - 1] == key[|key| - 1];
    }
  }

  lemma AdvanceSound(w: World, s: State, a: Agent, e: Event)
    requires AgentSound(w, s.store, a) && Advance(w, s, a, e).Some?
    ensures AgentSound(w, s.store, Advance(w, s, a, e).value)
  {
    hide Shaped, IsManifestKey, Visible;
  }

  lemma SentSound(w: World, s: State, a: Agent, e: Event, r: Request)
    requires JsonReads(w) && AgentSound(w, s.store, a) && Advance(w, s, a, e).Some? && r in NewRequests(w, a, e)
    ensures ReadsComplete(w, s.store, r.key, r.data)
  {
    hide Stored, IsManifestKey, HasSuffix, OwnedStored, Visible, Scrubbed, PlainManifest, Descriptors;
    if e.Send? {
      assert HasSuffix(a.staging.value.draft.archives[e.i].descriptor.key, ARCHIVE_SUFFIX);
      NotBoth(r.key);
    } else {
      var draft := a.staging.value.draft;
      assert w.read(r.data) == Some(Scrubbed(draft.manifest));
      forall b | b in Descriptors(draft.manifest) ensures Stored(w.lib, s.store, b) {
        var i :| 0 <= i < |DescriptorsOf(draft.archives)| && DescriptorsOf(draft.archives)[i] == b;
        assert Stored(w.lib, s.store, draft.archives[i].descriptor);
      }
      ScrubbedComplete(w.lib, s.store, draft.manifest);
    }
  }

  lemma NextSound(w: World, s: State, e: Event)
    requires JsonReads(w) && Sound(w, s) && Next(w, s, e).Some?
    ensures Sound(w, Next(w, s, e).value)
  {
    hide ReadsComplete, AgentSound, Advance, NewRequests, JsonReads, IsManifestKey;
    match e
    case Foreign(key, data) =>
      assert ReadsComplete(w, s.store, key, data) by {
        OthersComplete(w, s.store, key, data);
      }
      PutSound(w, s, Request(key, data));
    case Land(request) => PutSound(w, s, request);
    case _ =>
      var a, t := AgentAt(s, e.n), Next(w, s, e).value;
      NewcomerSound(w, s.store);
      AdvanceSound(w, s, a, e);
      forall r | r in t.sent ensures ReadsComplete(w, t.store, r.key, r.data) {
        if r !in s.sent {
          SentSound(w, s, a, e, r);
        }
      }
  }

  lemma OthersComplete(w: World, store: Store, key: string, data: Bytes)
    requires !IsManifestKey(key)
    ensures ReadsComplete(w, store, key, data)
  {
  }

  lemma NewcomerSound(w: World, store: Store)
    ensures AgentSound(w, store, Agent(None, Idle))
  {
  }

  lemma {:induction false} RunSound(w: World, trace: seq<Event>, states: seq<State>, n: nat)
    requires JsonReads(w) && Run(w, trace, states) && n <= |trace|
    ensures Sound(w, states[n])
  {
    hide Next, JsonReads, ReadsComplete, AgentSound;
    if n > 0 {
      RunSound(w, trace, states, n - 1);
      assert Next(w, states[n - 1], trace[n - 1]) == Some(states[n - 1 + 1]);
      NextSound(w, states[n - 1], trace[n - 1]);
    }
  }

  /**
   In every reachable state, whatever stops, resumes or arrives late: a manifest that can be read from the store
   lists only archives that are there, with the size and the digest it states.
   */
  lemma VisibleIsComplete(w: World, trace: seq<Event>, states: seq<State>, n: nat, key: string, m: Manifest)
    requires JsonReads(w) && Run(w, trace, states) && n <= |trace|
    requires HasSuffix(key, "manifest.json") && key in states[n].store && w.read(states[n].store[key]) == Some(m)
    ensures Complete(w.lib, states[n].store, m)
  {
    hide JsonReads, AgentSound, Complete, HasSuffix, Next;
    RunSound(w, trace, states, n);
    assert ReadsComplete(w, states[n].store, key, states[n].store[key]);
  }

  // ---------------------------------------------------------------- a finished sync

  /** When a sync reports success, its manifest and all its archives are there, and stay. */
  lemma FinishedStays(w: World, trace: seq<Event>, states: seq<State>, n: nat, m: nat, staging: Staging)
    requires JsonReads(w) && Run(w, trace, states) && n < m <= |trace| && trace[n].Done?
    requires AgentAt(states[n], trace[n].n).staging == Some(staging)
    ensures var store, bytes := states[m].store, w.write(staging.draft.manifest);
      staging.key in store && |store[staging.key]| == |bytes| && w.lib.sha256(store[staging.key]) == w.lib.sha256(bytes)
    ensures forall i :: 0 <= i < |staging.draft.archives| ==> Stored(w.lib, states[m].store, staging.draft.archives[i].descriptor)
  {
    hide JsonReads, Stored, Shaped, ReadsComplete, NewRequests, OwnedStored;
    RunSound(w, trace, states, n);
    RunGrows(w, trace, states, n, m);
    assert Next(w, states[n], trace[n]) == Some(states[n + 1]);
    var a := AgentAt(states[n], trace[n].n);
    NewcomerSound(w, states[n].store);
    assert AgentSound(w, states[n].store, a);
    forall i | 0 <= i < |staging.draft.archives| ensures Stored(w.lib, states[m].store, staging.draft.archives[i].descriptor) {
      StoredGrows(w.lib, states[n].store, states[m].store, staging.draft.archives[i].descriptor);
    }
  }

  /**
   No digest collision between what a sync wrote or staged and what is stored under its keys, nor between its
   descriptors as written and as read.
   */
  ghost predicate Distinguishable(w: World, store: Store, staging: Staging)
  {
    && (forall i :: 0 <= i < |staging.draft.archives| ==> NoCollision(w.lib, store, staging.draft.archives[i]))
    && (var bytes := w.write(staging.draft.manifest);
        staging.key in store && w.lib.sha256(store[staging.key]) == w.lib.sha256(bytes) ==> store[staging.key] == bytes)
    && AggregateTells(w.lib, staging.draft.manifest)
  }

  /** `Restore` from the manifest under a key: read it, decide whether to accept it, and lay its archives down. */
  ghost function RestoreFrom(w: World, store: Store, key: string, c: Command): Result<Disk>
  {
    if key !in store || w.read(store[key]).None? then Failed
    else
      var m := w.read(store[key]).value;
      if !Accepted(w.lib, m, c) then Failed else Restore(w.lib, store, m, c)
  }

  /** What is read from under the key of a finished sync. */
  lemma ReadsOwnManifest(
    w: World, trace: seq<Event>, states: seq<State>, n: nat, m: nat, staging: Staging,
    prefix: string, c: Command, revision: nat, files: seq<File>, previous: Manifest)
    requires JsonReads(w) && Run(w, trace, states) && n < m <= |trace| && trace[n].Done?
    requires AgentAt(states[n], trace[n].n).staging == Some(staging)
    requires DraftOf(w.lib, prefix, c, revision, files, previous, staging.draft) && Distinguishable(w, states[m].store, staging)
    ensures forall i :: 0 <= i < |staging.draft.archives| ==> Stored(w.lib, states[m].store, staging.draft.archives[i].descriptor)
    ensures RestoreFrom(w, states[m].store, staging.key, c.(revision := revision)) ==
      if TextInputs(c, previous, files) then Restore(w.lib, states[m].store, staging.draft.manifest, c.(revision := revision)) else Failed
  {
    hide Next, Restore, Stored, NoCollision, Syncs, BuildManifest, Accepted, TextInputs, AggregateTells, Scrubbed, Descriptors, Collides,
         Unmarked, FitsLimits, PlainManifest;
    FinishedStays(w, trace, states, n, m, staging);
    FinishedPlain(w, trace, states, n, staging);
    OwnAggregate(w.lib, prefix, c, revision, files, previous, staging.draft);
    ReadBackAccepted(w.lib, staging.draft.manifest, c.(revision := revision));
    PublishedAcceptedExactly(w.lib, prefix, c, revision, files, previous, staging.draft);
    DraftAcceptedExactly(w.lib, prefix, c, revision, files, previous, staging.draft);
    ScrubbedFixed(staging.draft.manifest);
  }

  lemma FinishedPlain(w: World, trace: seq<Event>, states: seq<State>, n: nat, staging: Staging)
    requires JsonReads(w) && Run(w, trace, states) && n < |trace| && trace[n].Done?
    requires AgentAt(states[n], trace[n].n).staging == Some(staging)
    ensures PlainManifest(staging.draft.manifest)
  {
    hide JsonReads, Stored, ReadsComplete, OwnedStored, PlainManifest, Next;
    RunSound(w, trace, states, n);
  }

  lemma AllTextFiles(lib: Library, prefix: string, c: Command, files: seq<File>, previous: Manifest, content: Archive)
    requires BuildContent(lib, prefix, c, Classified(files).content, previous) == Ok(content) && content.staged.Some?
    ensures TextInputs(c, previous, files) <==> forall f :: f in files ==> IsText(f.path)
  {
    hide IsText, Classified, IsCompilerContent;
  }

  /**
   End to end: once a sync has reported success, a restore at any later time puts exactly the synced files on disk, if
   and only if every name among them is text; otherwise it is refused.
   */
  lemma SyncedWorkspaceComesBack(
    w: World, trace: seq<Event>, states: seq<State>, n: nat, m: nat, staging: Staging,
    prefix: string, c: Command, revision: nat, files: seq<File>, previous: Manifest)
    requires JsonReads(w) && Run(w, trace, states) && n < m <= |trace| && trace[n].Done?
    requires AgentAt(states[n], trace[n].n).staging == Some(staging)
    requires DraftOf(w.lib, prefix, c, revision, files, previous, staging.draft) && ReadsBack(w.lib) && Tree(FilePaths(files))
    requires |staging.draft.archives| > 0 && staging.draft.archives[0].staged.Some?
    requires Distinguishable(w, states[m].store, staging)
    ensures RestoreFrom(w, states[m].store, staging.key, c.(revision := revision)) ==
      if forall f :: f in files ==> IsText(f.path) then Ok(DiskOf(files)) else Failed
  {
    hide Next, ReadsBack, Tree, Restore, Stored, NoCollision, RestoreFrom, Syncs, BuildManifest, Accepted, TextInputs, IsText,
         AggregateTells, BuildContent, BuildConfig, BuildWorld;
    ReadsOwnManifest(w, trace, states, n, m, staging, prefix, c, revision, files, previous);
    WorkspaceComesBack(w.lib, states[m].store, prefix, c, revision, files, previous, staging.draft);
    var content, config, world := DraftParts(w.lib, prefix, c, revision, files, previous, staging.draft);
    AllTextFiles(w.lib, prefix, c, files, previous, content);
  }

  /**
   The same over compiler-owned content that is intact: a restore at any later time yields that content, the config
   of the synced files over it, and their world, exactly if no path of these is both a file and a directory and every
   name that is listed is text.
   */
  lemma SyncedWorkspaceOverContent(
    w: World, trace: seq<Event>, states: seq<State>, n: nat, m: nat, staging: Staging,
    prefix: string, c: Command, revision: nat, files: seq<File>, previous: Manifest, content: seq<File>)
    requires JsonReads(w) && Run(w, trace, states) && n < m <= |trace| && trace[n].Done?
    requires AgentAt(states[n], trace[n].n).staging == Some(staging)
    requires DraftOf(w.lib, prefix, c, revision, files, previous, staging.draft) && ReadsBack(w.lib)
    requires Distinguishable(w, states[m].store, staging) && |staging.draft.archives| > 0
    requires Holds(w.lib, states[m].store, staging.draft.archives[0].descriptor, content)
    ensures var l := Classified(files); var r := RestoreFrom(w, states[m].store, staging.key, c.(revision := revision));
      && (r.Ok? <==> Tree(FilePaths(content) + FilePaths(l.config) + FilePaths(Flat(l.world))) && TextInputs(c, previous, files))
      && (r.Ok? ==> r.value == DiskOf(content) + DiskOf(l.config) + DiskOf(Flat(l.world)))
  {
    hide Next, DraftOf, ReadsBack, Tree, Restore, Stored, NoCollision, Holds, Classified, RestoreFrom, TextInputs, AggregateTells;
    ReadsOwnManifest(w, trace, states, n, m, staging, prefix, c, revision, files, previous);
    WorkspaceOverContent(w.lib, states[m].store, prefix, c, revision, files, previous, staging.draft, content);
  }

  // ---------------------------------------------------------------- drafts have that shape

  lemma WorldKeyEnds(prefix: string, key: string)
    requires WorldLayerKey(prefix, key)
    ensures HasSuffix(key, ARCHIVE_SUFFIX)
  {
    hide Text.Split, AllDigits, ValidShardName;
    var root := RevisionRoot(prefix);
    var rest := key[|root|..];
    var last := Below(prefix, key)[2];
    var i := PartStarts(rest, 2);
    assert rest[i..] == last;
    assert key[|root| + i..] == last;
    assert last[|last| - |ARCHIVE_SUFFIX|..] == key[|key| - |ARCHIVE_SUFFIX|..];
  }

  lemma ConfigKeyEnds(prefix: string, key: string)
    requires RevisionLayerKey(prefix, key, CONFIG_NAME)
    ensures HasSuffix(key, ARCHIVE_SUFFIX)
  {
    var root := RevisionRoot(prefix);
    var rest := key[|root|..];
    var i := PartStarts(rest, 1);
    assert rest[i..] == CONFIG_NAME;
    assert key[|root| + i..] == CONFIG_NAME;
    assert CONFIG_NAME[|CONFIG_NAME| - |ARCHIVE_SUFFIX|..] == ARCHIVE_SUFFIX;
    assert CONFIG_NAME[|CONFIG_NAME| - |ARCHIVE_SUFFIX|..] == key[|key| - |ARCHIVE_SUFFIX|..];
  }

  lemma PrintedWorldKeyEnds(prefix: string, revision: nat, index: nat)
    ensures HasSuffix(WorldKey(prefix, revision, index), ARCHIVE_SUFFIX)
  {
    var front := RevisionRoot(prefix) + (Decimal(revision) + "/" + (WORLD + "/" + ShardName(index)));
    assert WorldKey(prefix, revision, index) == front + ARCHIVE_SUFFIX;
  }

  /** The draft of a sync is one the protocol takes. */
  lemma DraftIsShaped(
    lib: Library, prefix: string, c: Command, revision: nat, files: seq<File>, previous: Manifest, draft: Draft)
    requires Syncs(lib, prefix, c, revision, files, previous) && PlainInputs(prefix, c, previous)
    requires BuildManifest(lib, prefix, c, revision, files, previous) == Ok(draft)
    ensures Shaped(draft)
  {
    hide PlainInputs, PlainManifest, Syncs, Classified, BuildContent, BuildConfig, BuildWorld, BuildManifest, HasSuffix, ManifestOf, Descriptors,
         RevisionLayerKey, WorldLayerKey, Written, AllIn, Acceptance.ShardBuilt;
    var content, config, world := DraftParts(lib, prefix, c, revision, files, previous, draft);
    forall b | b in Descriptors(draft.manifest) ensures b in DescriptorsOf(draft.archives) {
      ListsArchives(lib, c, revision, content, config, world, b);
    }
    ContentSound(lib, prefix, c, revision, files, previous);
    ContentKeyStarts(prefix, content.descriptor.sha256);
    ConfigSound(lib, prefix, c, revision, files, previous);
    if config != [] {
      ConfigKeyEnds(prefix, config[0].descriptor.key);
    }
    SyncsGive(lib, prefix, c, revision, files, previous);
    DraftIsPlain(lib, prefix, c, revision, files, previous, draft);
    WorldIsBuilt(lib, prefix, c, revision, files, previous, world);
    forall i | 0 <= i < |world| ensures HasSuffix(world[i].descriptor.key, ARCHIVE_SUFFIX) {
      ShardKeyEnds(lib, prefix, revision, i, Classified(files).world[i], previous, DescriptorsOf(world)[i]);
    }
  }

  lemma ShardKeyEnds(
    lib: Library, prefix: string, revision: nat, index: nat, files: seq<File>, previous: Manifest, b: Blob)
    requires Acceptance.ShardBuilt(lib, prefix, revision, index, files, previous, b) && Drafts.Sound(prefix, previous)
    ensures HasSuffix(b.key, ARCHIVE_SUFFIX)
  {
    hide WorldKey, WorldLayerKey, HasSuffix, Written, AllIn, SoundContent, SoundConfig, PathsOf, Size;
    ShardKey(lib, prefix, revision, index, files, previous, b);
    if b in previous.world {
      var i :| 0 <= i < |previous.world| && previous.world[i] == b;
      assert SoundShard(prefix, previous.world[i]);
      WorldKeyEnds(prefix, b.key);
    } else {
      PrintedWorldKeyEnds(prefix, revision, index);
    }
  }
}
