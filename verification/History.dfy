/**
 The manifests that nodes hold for a service over its life: forgotten on release, loaded on restore and when a process
 starts again, replaced by every sync. Manifests are published under their revision, once. Whatever revisions the
 commands name, whichever nodes run them and whatever happened before, every sync that publishes within the limits and
 with names that are text publishes a manifest that a restore accepts.
 */
module History {
  import opened Bytes
  import opened Options
  import opened Layers
  import opened Keys
  import opened Manifests
  import opened Drafts
  import opened Acceptance
  import opened Json
  import opened Rereading
  import Text

  type Node = nat

  /** What each node holds, and what is published, as it was written. */
  datatype State = State(held: map<Node, Manifest>, published: map<nat, Manifest>)

  /**
   A restore and a sync name the revision they read or write. A sync may be cut off after its manifest was published and
   before the node has it on file.
   */
  datatype Event =
    | Released(n: Node)
    | StartedFresh(n: Node, c: Command, runtime: Blob)
    | Restored(n: Node, c: Command, revision: nat, selected: Option<Blob>)
    | Reloaded(n: Node, c: Command)
    | Synced(n: Node, c: Command, revision: nat, files: seq<File>, kept: bool)

  const BEGINNING := State(map[], map[])

  function HeldBy(s: State, n: Node): Manifest
  {
    if n in s.held then s.held[n] else NO_MANIFEST
  }

  /** The manifest after the first restore of compiler-owned content. */
  function FirstManifest(lib: Library, c: Command, runtime: Blob): Manifest
  {
    var bare := NO_MANIFEST.(
      schemaVersion := 2, serviceId := c.serviceId, assignmentId := c.assignmentId, content := Some(runtime),
      logicalSize := runtime.logicalSize);
    bare.(aggregateSha256 := lib.aggregate([runtime]), manifestHash := lib.aggregate([runtime]))
  }

  /** A restore puts the selected runtime in place of the content; a config that lay over another one goes. */
  function WithRuntime(lib: Library, m: Manifest, runtime: Option<Blob>): Manifest
  {
    if runtime.None? then m
    else
      var keeps := m.content.Some? && SameArchive(m.content.value, runtime.value);
      var bare := m.(content := runtime, config := if keeps then m.config else None);
      bare.(logicalSize := LogicalSum(Descriptors(bare)), aggregateSha256 := lib.aggregate(Descriptors(bare)),
            manifestHash := lib.aggregate(Descriptors(bare)))
  }

  /** `validateRestoredManifest`: acceptable, or what the first restore of compiler-owned content has left. */
  ghost predicate RestoredValid(lib: Library, m: Manifest, c: Command)
  {
    || Accepted(lib, m, c.(revision := m.revision))
    || (&& m.schemaVersion == 2 && m.serviceId == c.serviceId && m.revision >= 0 && m.assignmentId != ""
        && m.content.Some? && IsCompilerContent(m.content.value) && m.config.None? && m.world == []
        && m.logicalSize == m.content.value.logicalSize
        && m.aggregateSha256 == lib.aggregate(Descriptors(m)) && m.manifestHash == m.aggregateSha256
        && WorkspacePrefix(c).Ok? && RuntimeContent(WorkspacePrefix(c).value, m.content.value))
  }

  /**
   What an event makes of the manifests. A manifest is created under the key of its revision and never replaced:
   a sync at a revision that is published already goes through only with the very same manifest. What is read, from
   the store or from the node's own file, is what JSON makes of what was written, and has to pass.
   */
  ghost function Next(lib: Library, prefix: string, s: State, e: Event): Option<State>
  {
    var mine := HeldBy(s, e.n);
    match e
    case Released(n) => Some(s.(held := s.held - {n}))
    case StartedFresh(n, c, runtime) => Some(s.(held := s.held[n := FirstManifest(lib, c, runtime)]))
    case Restored(n, c, revision, selected) =>
      if revision in s.published && Accepted(lib, Scrubbed(s.published[revision]), c.(revision := revision))
      then Some(s.(held := s.held[n := WithRuntime(lib, Scrubbed(s.published[revision]), selected)])) else None
    case Reloaded(n, c) =>
      if mine == NO_MANIFEST then Some(s)
      else if RestoredValid(lib, Scrubbed(mine), c) then Some(s.(held := s.held[n := Scrubbed(mine)])) else None
    case Synced(n, c, revision, files, kept) =>
      var draft := BuildManifest(lib, prefix, c, revision, files, mine);
      if draft.Failed? || (revision in s.published && s.published[revision] != draft.value.manifest) then None
      else Some(State(if kept then s.held[n := draft.value.manifest] else s.held, s.published[revision := draft.value.manifest]))
  }

  ghost predicate Run(lib: Library, prefix: string, trace: seq<Event>, states: seq<State>)
  {
    && |states| == |trace| + 1
    && states[0] == BEGINNING
    && forall i :: 0 <= i < |trace| ==> Next(lib, prefix, states[i], trace[i]) == Some(states[i + 1])
  }

  // ---------------------------------------------------------------- what the environment owes

  ghost predicate GoodRuntime(prefix: string, b: Blob)
  {
    RuntimeContent(prefix, b) && ValidPaths(b.paths) && !Contains(b.key, WORLD_MARK)
  }

  ghost predicate GoodCommand(prefix: string, c: Command)
  {
    && WorkspacePrefix(c) == Ok(prefix) && c.assignmentId != ""
    && (c.runtimeContent.Some? ==> GoodRuntime(prefix, c.runtimeContent.value))
  }

  /**
   Files come from a disk, runtimes from the compiler, the shards of a sync can be numbered in a name, and no digest
   over descriptors is also that of what JSON makes of them.
   */
  ghost predicate Allowed(lib: Library, prefix: string, s: State, e: Event)
  {
    match e
    case Released(n) => true
    case StartedFresh(n, c, runtime) => GoodRuntime(prefix, runtime)
    case Restored(n, c, revision, selected) =>
      && (selected.Some? ==> GoodRuntime(prefix, selected.value))
      && (revision in s.published ==> AggregateTells(lib, s.published[revision]))
    case Reloaded(n, c) => AggregateTells(lib, HeldBy(s, n))
    case Synced(n, c, revision, files, kept) =>
      var draft := BuildManifest(lib, prefix, c, revision, files, HeldBy(s, n));
      && GoodCommand(prefix, c) && OnDisk(files)
      && (draft.Ok? ==> |draft.value.archives| <= SHARD_NUMBERS && AggregateTells(lib, draft.value.manifest))
  }

  ghost predicate AllAllowed(lib: Library, prefix: string, trace: seq<Event>, states: seq<State>)
    requires |states| == |trace| + 1
  {
    forall i :: 0 <= i < |trace| ==> Allowed(lib, prefix, states[i], trace[i])
  }

  /** No account and no service on the way to the objects is named like the world layer. */
  ghost predicate PlainPrefix(prefix: string)
  {
    !Contains(prefix + "/", WORLD_MARK)
  }

  // ---------------------------------------------------------------- the invariant

  ghost predicate OwnDigest(lib: Library, m: Manifest)
  {
    m == NO_MANIFEST || m.aggregateSha256 == lib.aggregate(Descriptors(m))
  }

  /** Sound, without the mark, with its own digest, and with shards from published revisions only. */
  ghost predicate Healthy(lib: Library, prefix: string, m: Manifest, revisions: set<nat>)
  {
    && OwnDigest(lib, m)
    && Sound(prefix, m) && Stamped(prefix, m, revisions)
    && (m.content.Some? ==> !Contains(m.content.value.key, WORLD_MARK))
  }

  function Revisions(s: State): set<nat>
  {
    s.published.Keys
  }

  ghost predicate AllHealthy(lib: Library, prefix: string, s: State)
  {
    && (forall n :: n in s.held ==> Healthy(lib, prefix, s.held[n], Revisions(s)))
    && (forall r :: r in s.published ==> s.published[r] != NO_MANIFEST && Healthy(lib, prefix, s.published[r], Revisions(s)))
  }

  /** What passes after it was read is text, and so it is what was written. */
  lemma ReadAsWritten(lib: Library, m: Manifest)
    requires m.aggregateSha256 == lib.aggregate(Descriptors(m)) && AggregateTells(lib, m)
    requires lib.aggregate(Descriptors(Scrubbed(m))) == Scrubbed(m).aggregateSha256
    ensures Scrubbed(m) == m
  {
    hide Scrubbed, ScrubAll, TextLists, Descriptors;
    ScrubbedLists(m);
    ScrubbedFixed(m);
    ScrubAllFixed(Descriptors(m));
    SameDigest(m);
  }

  lemma PassedDigest(lib: Library, m: Manifest, c: Command)
    requires RestoredValid(lib, m, c)
    ensures lib.aggregate(Descriptors(m)) == m.aggregateSha256
  {
    hide Listed, Layered, LogicalSum, CompressedSum, AllPaths, RuntimeContent, Descriptors;
  }

  /**
   When a process starts again, it goes on from the manifest on file if and only if that is valid and lists only text;
   otherwise every later sync of the service fails on this node until it is released.
   */
  lemma ReloadedExactly(lib: Library, m: Manifest, c: Command)
    requires OwnDigest(lib, m) && m != NO_MANIFEST && AggregateTells(lib, m)
    ensures RestoredValid(lib, Scrubbed(m), c) <==> RestoredValid(lib, m, c) && TextLists(Descriptors(m))
  {
    hide RestoredValid, Scrubbed, Descriptors, AggregateTells, TextLists;
    ScrubbedFixed(m);
    if RestoredValid(lib, Scrubbed(m), c) {
      PassedDigest(lib, Scrubbed(m), c);
      ReadAsWritten(lib, m);
    }
  }

  lemma HealthyLater(lib: Library, prefix: string, m: Manifest, early: set<nat>, late: set<nat>)
    requires Healthy(lib, prefix, m, early) && early <= late
    ensures Healthy(lib, prefix, m, late)
  {
    hide OwnDigest, Sound, Contains, RevisionOf;
  }

  lemma RuntimeHealthy(lib: Library, prefix: string, m: Manifest, runtime: Blob, revisions: set<nat>)
    requires Healthy(lib, prefix, m, revisions) && GoodRuntime(prefix, runtime)
    ensures Healthy(lib, prefix, WithRuntime(lib, m, Some(runtime)), revisions)
  {
    hide SoundContent, SoundConfig, SoundShard, Contains, LogicalSum, RuntimeContent, ValidPaths, SameArchive, RevisionOf;
    RuntimeSound(prefix, runtime);
  }

  lemma FirstHealthy(lib: Library, prefix: string, c: Command, runtime: Blob, revisions: set<nat>)
    requires GoodRuntime(prefix, runtime)
    ensures Healthy(lib, prefix, FirstManifest(lib, c, runtime), revisions)
  {
    hide SoundContent, SoundConfig, SoundShard, Contains, RuntimeContent, ValidPaths, RevisionOf;
    RuntimeSound(prefix, runtime);
    assert Descriptors(FirstManifest(lib, c, runtime)) == [runtime];
  }

  /** Neither the prefix nor a runtime that was ever selected has the mark. */
  lemma HealthyUnmarked(lib: Library, prefix: string, c: Command, previous: Manifest, revisions: set<nat>)
    requires PlainPrefix(prefix) && GoodCommand(prefix, c) && Healthy(lib, prefix, previous, revisions)
    ensures Unmarked(prefix, c, previous)
  {
    hide OwnDigest, Contains, Sound, Stamped, RuntimeContent, ValidPaths, IsCompilerContent, WorkspacePrefix;
  }

  /** The shards of a draft are of its own revision, or were there before. */
  lemma DraftStamped(
    lib: Library, prefix: string, c: Command, revision: nat, files: seq<File>, previous: Manifest, draft: Draft,
    revisions: set<nat>)
    requires Syncs(lib, prefix, c, revision, files, previous) && Unmarked(prefix, c, previous)
    requires BuildManifest(lib, prefix, c, revision, files, previous) == Ok(draft) && Stamped(prefix, previous, revisions)
    ensures draft.manifest.content.Some? && !Contains(draft.manifest.content.value.key, WORLD_MARK)
    ensures Stamped(prefix, draft.manifest, revisions + {revision})
  {
    hide BuildManifest, Classified, Contains, BuildContent, BuildConfig, BuildWorld, Syncs, Unmarked, ManifestOf, RevisionOf,
         ShardBuilt, SoundContent, Descriptors;
    var content, config, world := DraftParts(lib, prefix, c, revision, files, previous, draft);
    HeadOf(lib, c, revision, content, config, world);
    ContentMarkedByInputs(lib, prefix, c, revision, files, previous, content);
    DraftLists(lib, prefix, c, revision, files, previous, draft, content, config, world);
    var shards, ds := Classified(files).world, DescriptorsOf(world);
    forall i | 0 <= i < |ds| ensures RevisionOf(prefix, ds[i].key) in revisions + {revision} {
      ShardKey(lib, prefix, revision, i, shards[i], previous, ds[i]);
      PrintedKeysPass(prefix, revision, i);
      if ds[i] in previous.world {
        var p :| 0 <= p < |previous.world| && previous.world[p] == ds[i];
      }
    }
  }

  /** A sync at a revision that is not published yet. */
  lemma SyncHealthy(
    lib: Library, prefix: string, published: set<nat>, mine: Manifest, c: Command, revision: nat, files: seq<File>, draft: Draft)
    requires PlainPrefix(prefix) && Digests(lib) && GoodCommand(prefix, c) && OnDisk(files)
    requires Healthy(lib, prefix, mine, published) && revision !in published
    requires BuildManifest(lib, prefix, c, revision, files, mine) == Ok(draft) && |draft.archives| <= SHARD_NUMBERS
    ensures Syncs(lib, prefix, c, revision, files, mine) && Unmarked(prefix, c, mine)
    ensures !Collides(lib, prefix, revision, files, mine)
    ensures Descriptors(draft.manifest) == DescriptorsOf(draft.archives)
    ensures draft.manifest != NO_MANIFEST && Healthy(lib, prefix, draft.manifest, published + {revision})
  {
    hide BuildManifest, Sound, Stamped, Contains, RuntimeContent, ValidPaths, WorkspacePrefix, Digests, OnDisk, PlainPrefix,
         Unmarked, Collides, Descriptors, SHARD_NUMBERS;
    assert Syncs(lib, prefix, c, revision, files, mine);
    HealthyUnmarked(lib, prefix, c, mine, published);
    NewRevisionNeverCollides(lib, prefix, revision, files, mine, published);
    DraftSound(lib, prefix, c, revision, files, mine, draft);
    DraftStamped(lib, prefix, c, revision, files, mine, draft, published);
    OwnAggregate(lib, prefix, c, revision, files, mine, draft);
  }

  lemma MineHealthy(lib: Library, prefix: string, s: State, n: Node)
    requires AllHealthy(lib, prefix, s)
    ensures Healthy(lib, prefix, HeldBy(s, n), Revisions(s))
  {
    hide Healthy;
    NothingHealthy(lib, prefix, Revisions(s));
  }

  lemma PublishKeepsHealth(lib: Library, prefix: string, s: State, n: Node, revision: nat, m: Manifest, t: State)
    requires AllHealthy(lib, prefix, s) && m != NO_MANIFEST && Healthy(lib, prefix, m, Revisions(s) + {revision})
    requires t.published == s.published[revision := m] && (t.held == s.held || t.held == s.held[n := m])
    ensures AllHealthy(lib, prefix, t)
  {
    hide Healthy;
    assert Revisions(t) == Revisions(s) + {revision};
    forall r | r in s.published ensures Healthy(lib, prefix, s.published[r], Revisions(t)) {
      HealthyLater(lib, prefix, s.published[r], Revisions(s), Revisions(t));
    }
    forall k | k in s.held ensures Healthy(lib, prefix, s.held[k], Revisions(t)) {
      HealthyLater(lib, prefix, s.held[k], Revisions(s), Revisions(t));
    }
  }

  lemma SyncKeepsHealth(lib: Library, prefix: string, s: State, e: Event, t: State)
    requires PlainPrefix(prefix) && Digests(lib) && AllHealthy(lib, prefix, s) && e.Synced?
    requires Allowed(lib, prefix, s, e) && Next(lib, prefix, s, e) == Some(t)
    ensures AllHealthy(lib, prefix, t)
  {
    hide BuildManifest, Healthy, PlainPrefix, Digests, OnDisk, GoodCommand, SHARD_NUMBERS, AggregateTells, HeldBy, Accepted,
         RestoredValid;
    var mine := HeldBy(s, e.n);
    var draft := BuildManifest(lib, prefix, e.c, e.revision, e.files, mine).value;
    MineHealthy(lib, prefix, s, e.n);
    if e.revision in s.published {
      assert Revisions(s) + {e.revision} == Revisions(s);
    } else {
      SyncHealthy(lib, prefix, Revisions(s), mine, e.c, e.revision, e.files, draft);
    }
    PublishKeepsHealth(lib, prefix, s, e.n, e.revision, draft.manifest, t);
  }

  /** A restore takes over what was written. */
  lemma RestoreKeepsHealth(lib: Library, prefix: string, s: State, e: Event, t: State)
    requires AllHealthy(lib, prefix, s) && e.Restored? && Allowed(lib, prefix, s, e) && Next(lib, prefix, s, e) == Some(t)
    ensures AllHealthy(lib, prefix, t)
  {
    hide WithRuntime, GoodRuntime, Scrubbed, AggregateTells, Sound, Stamped, Contains, Descriptors, HeldBy, Accepted;
    var m := s.published[e.revision];
    assert OwnDigest(lib, m);
    AcceptedDigest(lib, Scrubbed(m), e.c.(revision := e.revision));
    ReadAsWritten(lib, m);
    if e.selected.Some? {
      RuntimeHealthy(lib, prefix, m, e.selected.value, Revisions(s));
    } else {
      SameWithout(lib, m);
    }
  }

  lemma AcceptedDigest(lib: Library, m: Manifest, c: Command)
    requires Accepted(lib, m, c)
    ensures lib.aggregate(Descriptors(m)) == m.aggregateSha256
  {
    hide Listed, Layered, LogicalSum, CompressedSum, AllPaths, Descriptors;
  }

  lemma ReloadKeepsHealth(lib: Library, prefix: string, s: State, e: Event, t: State)
    requires AllHealthy(lib, prefix, s) && e.Reloaded? && Allowed(lib, prefix, s, e) && Next(lib, prefix, s, e) == Some(t)
    ensures AllHealthy(lib, prefix, t)
  {
    hide Scrubbed, AggregateTells, Sound, Stamped, Contains, Descriptors, RestoredValid;
    var mine := HeldBy(s, e.n);
    if mine != NO_MANIFEST {
      PassedDigest(lib, Scrubbed(mine), e.c);
      assert OwnDigest(lib, mine);
      ReadAsWritten(lib, mine);
    }
  }

  lemma StepHealthy(lib: Library, prefix: string, s: State, e: Event, t: State)
    requires PlainPrefix(prefix) && Digests(lib) && AllHealthy(lib, prefix, s) && Allowed(lib, prefix, s, e)
    requires Next(lib, prefix, s, e) == Some(t)
    ensures AllHealthy(lib, prefix, t)
  {
    hide BuildManifest, Digests, OnDisk, PlainPrefix, WithRuntime, FirstManifest, GoodRuntime, GoodCommand, Healthy,
         SHARD_NUMBERS, AggregateTells, Accepted, RestoredValid, Scrubbed;
    match e
    case Released(n) =>
    case StartedFresh(n, c, runtime) => FirstHealthy(lib, prefix, c, runtime, Revisions(s));
    case Restored(_, _, _, _) => RestoreKeepsHealth(lib, prefix, s, e, t);
    case Reloaded(_, _) => ReloadKeepsHealth(lib, prefix, s, e, t);
    case Synced(_, _, _, _, _) => SyncKeepsHealth(lib, prefix, s, e, t);
  }

  lemma NothingHealthy(lib: Library, prefix: string, revisions: set<nat>)
    ensures Healthy(lib, prefix, NO_MANIFEST, revisions)
  {
  }

  lemma SameWithout(lib: Library, m: Manifest)
    ensures WithRuntime(lib, m, None) == m
  {
  }

  lemma {:induction false} RunHealthy(lib: Library, prefix: string, trace: seq<Event>, states: seq<State>, n: nat)
    requires PlainPrefix(prefix) && Digests(lib) && Run(lib, prefix, trace, states) && AllAllowed(lib, prefix, trace, states)
    requires n <= |trace|
    ensures AllHealthy(lib, prefix, states[n])
  {
    hide Healthy, Next, PlainPrefix, Digests, Allowed;
    if n > 0 {
      RunHealthy(lib, prefix, trace, states, n - 1);
      assert Next(lib, prefix, states[n - 1], trace[n - 1]) == Some(states[n - 1 + 1]);
      assert Allowed(lib, prefix, states[n - 1], trace[n - 1]);
      StepHealthy(lib, prefix, states[n - 1], trace[n - 1], states[n]);
    }
  }

  /**
   Along every run, a sync at a revision that is not published yet publishes a manifest that a restore accepts,
   exactly if it is within the limits and every name it lists is text.
   */
  lemma EverySyncAccepted(lib: Library, prefix: string, trace: seq<Event>, states: seq<State>, n: nat)
    requires PlainPrefix(prefix) && Digests(lib) && Run(lib, prefix, trace, states) && AllAllowed(lib, prefix, trace, states)
    requires n < |trace| && trace[n].Synced? && trace[n].revision !in states[n].published
    ensures |states| == |trace| + 1 && trace[n].revision in states[n + 1].published
    ensures var e, m := trace[n], states[n + 1].published[trace[n].revision];
      && states[n + 1].published == states[n].published[e.revision := m]
      && (Accepted(lib, Scrubbed(m), e.c.(revision := e.revision)) <==>
            FitsLimits(e.c, Descriptors(m)) && TextInputs(e.c, HeldBy(states[n], e.n), e.files))
  {
    hide BuildManifest, Sound, Stamped, Contains, Digests, OnDisk, PlainPrefix, GoodCommand, Accepted, FitsLimits,
         Descriptors, SHARD_NUMBERS, Scrubbed, AggregateTells, TextInputs, RestoredValid, Collides, Unmarked;
    RunHealthy(lib, prefix, trace, states, n);
    var s, e := states[n], trace[n];
    var mine := HeldBy(s, e.n);
    assert Next(lib, prefix, s, e) == Some(states[n + 1]);
    assert Allowed(lib, prefix, s, e);
    MineHealthy(lib, prefix, s, e.n);
    var draft := BuildManifest(lib, prefix, e.c, e.revision, e.files, mine).value;
    SyncHealthy(lib, prefix, Revisions(s), mine, e.c, e.revision, e.files, draft);
    PublishedAcceptedExactly(lib, prefix, e.c, e.revision, e.files, mine, draft);
  }

  /**
   A sync that is run again at a published revision: it goes through only if its draft is the published manifest, and
   the draft is one a restore accepts exactly if it is within the limits, no new shard gets the key of a reused one,
   and every name it lists is text.
   */
  lemma SyncAgainAccepted(lib: Library, prefix: string, trace: seq<Event>, states: seq<State>, n: nat, e: Event)
    requires PlainPrefix(prefix) && Digests(lib) && Run(lib, prefix, trace, states) && AllAllowed(lib, prefix, trace, states)
    requires n <= |trace| && |states| == |trace| + 1
    requires e.Synced? && e.revision in states[n].published && Allowed(lib, prefix, states[n], e)
    requires BuildManifest(lib, prefix, e.c, e.revision, e.files, HeldBy(states[n], e.n)).Ok?
    ensures var s := states[n]; var mine := HeldBy(s, e.n);
      var draft := BuildManifest(lib, prefix, e.c, e.revision, e.files, mine).value;
      && (Next(lib, prefix, s, e).Some? <==> draft.manifest == s.published[e.revision])
      && (Next(lib, prefix, s, e).Some? ==> Next(lib, prefix, s, e).value.published == s.published)
      && (Accepted(lib, Scrubbed(draft.manifest), e.c.(revision := e.revision)) <==>
            && FitsLimits(e.c, DescriptorsOf(draft.archives))
            && !Collides(lib, prefix, e.revision, e.files, mine)
            && TextInputs(e.c, mine, e.files))
  {
    hide BuildManifest, Sound, Stamped, Contains, Digests, OnDisk, PlainPrefix, Accepted, FitsLimits, Collides, Unmarked,
         DescriptorsOf, SHARD_NUMBERS, RuntimeContent, ValidPaths, WorkspacePrefix, Scrubbed, AggregateTells, TextInputs, RestoredValid,
         OwnDigest;
    RunHealthy(lib, prefix, trace, states, n);
    var s := states[n];
    var mine := HeldBy(s, e.n);
    MineHealthy(lib, prefix, s, e.n);
    var draft := BuildManifest(lib, prefix, e.c, e.revision, e.files, mine).value;
    assert Syncs(lib, prefix, e.c, e.revision, e.files, mine);
    HealthyUnmarked(lib, prefix, e.c, mine, Revisions(s));
    PublishedAcceptedExactly(lib, prefix, e.c, e.revision, e.files, mine, draft);
    if draft.manifest == s.published[e.revision] {
      assert s.published[e.revision := draft.manifest] == s.published;
    }
  }

  // ---------------------------------------------------------------- when it fails

  /** Where the way to the objects has the world mark, no sync ever publishes a manifest that can be restored. */
  lemma MarkedPrefixRefused(
    lib: Library, prefix: string, c: Command, revision: nat, files: seq<File>, previous: Manifest, draft: Draft)
    requires Syncs(lib, prefix, c, revision, files, previous) && Contains(prefix + "/", WORLD_MARK)
    requires BuildManifest(lib, prefix, c, revision, files, previous) == Ok(draft)
    ensures !Accepted(lib, draft.manifest, c.(revision := revision))
    ensures AggregateTells(lib, draft.manifest) ==> !Accepted(lib, Scrubbed(draft.manifest), c.(revision := revision))
  {
    hide BuildManifest, Sound, Contains, Digests, OnDisk, Accepted, FitsLimits, RuntimeContent, ValidPaths, SoundContent,
         Unmarked, BuildContent, Scrubbed, AggregateTells, TextInputs, Collides;
    var content, config, world := DraftParts(lib, prefix, c, revision, files, previous, draft);
    ContentSound(lib, prefix, c, revision, files, previous);
    ContentMarkedByInputs(lib, prefix, c, revision, files, previous, content);
    ContentKeyApart(prefix, content.descriptor);
    if !Contains(content.descriptor.key, WORLD_MARK) {
      PrefixUnmarked(prefix, content.descriptor.key);
    }
    DraftAcceptedExactly(lib, prefix, c, revision, files, previous, draft);
    if AggregateTells(lib, draft.manifest) {
      PublishedAcceptedExactly(lib, prefix, c, revision, files, previous, draft);
    }
  }

  /** That is so for every account and every service named like the world layer. */
  lemma NamedWorldIsMarked(c: Command, prefix: string)
    requires WorkspacePrefix(c) == Ok(prefix) && (c.accountId == WORLD || c.serviceId == WORLD)
    ensures Contains(prefix + "/", WORLD_MARK)
  {
    var s := prefix + "/";
    if c.serviceId == WORLD {
      var front := "shared-hosting/" + c.accountId;
      assert s == front + WORLD_MARK;
      assert s[|front|..|front| + |WORLD_MARK|] == WORLD_MARK;
      assert OccursAt(s, WORLD_MARK, |front|);
    } else {
      var front := "shared-hosting";
      assert s == front + WORLD_MARK + (c.serviceId + "/");
      assert s[|front|..|front| + |WORLD_MARK|] == WORLD_MARK;
      assert OccursAt(s, WORLD_MARK, |front|);
    }
  }

  // ---------------------------------------------------------------- building the same files again

  lemma {:induction false} ReuseUnique(previous: seq<Blob>, b: Blob, i: nat)
    requires i < |previous| && SameArchive(previous[i], b)
    requires forall j :: 0 <= j < i ==> !SameArchive(previous[j], b)
    ensures ReuseAny(previous, b) == previous[i]
  {
    hide SameArchive;
    if i > 0 {
      assert !SameArchive(previous[0], b);
      ReuseUnique(previous[1..], b, i - 1);
    }
  }

  lemma ContentAgain(
    lib: Library, prefix: string, c: Command, files: seq<File>, previous: Manifest, next: Manifest,
    content: Archive)
    requires BuildContent(lib, prefix, c, files, previous) == Ok(content)
    requires next.content == Some(content.descriptor)
    ensures var again := BuildContent(lib, prefix, c, files, next); again.Ok? && again.value.descriptor == content.descriptor
  {
    hide BuildArchive, IsCompilerContent, ContentKey, Joined;
  }

  lemma ConfigAgain(
    lib: Library, prefix: string, revision: nat, later: nat, files: seq<File>, previous: Manifest, next: Manifest,
    config: seq<Archive>)
    requires BuildConfig(lib, prefix, revision, files, previous) == Ok(config)
    requires config != [] ==> next.config == Some(config[0].descriptor)
    ensures var again := BuildConfig(lib, prefix, later, files, next); again.Ok? && DescriptorsOf(again.value) == DescriptorsOf(config)
  {
    hide BuildArchive, ConfigKey, Joined;
  }

  lemma ShardAgain(lib: Library, prefix: string, c: Command, revision: nat, later: nat, files: seq<File>, previous: Manifest,
                   next: Manifest, world: seq<Archive>, i: nat)
    requires Syncs(lib, prefix, c, revision, files, previous) && i < |world|
    requires BuildWorld(lib, prefix, revision, Classified(files).world, previous) == Ok(world) && next.world == DescriptorsOf(world)
    ensures |world| == |Classified(files).world|
    ensures var again := BuildShard(lib, prefix, later, i, Classified(files).world[i], next);
      again.Ok? && again.value.descriptor == world[i].descriptor
  {
    hide Syncs, Classified, BuildWorld, WorldKey, ReuseAny, Flat, OnDisk, Joined, Written, Size, AllIn, Digests;
    var shards, ds := Classified(files).world, DescriptorsOf(world);
    WorldIsBuilt(lib, prefix, c, revision, files, previous, world);
    SyncsGive(lib, prefix, c, revision, files, previous);
    LayersOnDisk(files);
    ClassifiedPaced(files);
    WorldAt(lib, prefix, revision, shards, previous, i);
    ShardOnDisk(shards, i);
    OnDiskArchive(lib, shards[i]);
    var b := BuildArchive(lib, shards[i]).value.descriptor;
    var keyed := b.(key := WorldKey(prefix, later, i));
    WrittenByAnyKey(b, keyed.key);
    forall j | 0 <= j < i ensures !SameArchive(ds[j], keyed) {
      assert ShardBuilt(lib, prefix, revision, j, shards[j], previous, ds[j]);
      assert ShardFits(shards[j]);
      OthersDiffer(shards, j, i, ds[j], keyed);
    }
    assert ShardBuilt(lib, prefix, revision, i, shards[i], previous, ds[i]);
    ReuseUnique(ds, keyed, i);
  }

  lemma OthersDiffer(shards: seq<seq<File>>, i: nat, j: nat, a: Blob, b: Blob)
    requires i < j < |shards| && OnDisk(Flat(shards)) && shards[i] != []
    requires Written(a) && Written(b) && a.paths == PathsOf(shards[i]) && b.paths == PathsOf(shards[j])
    ensures !SameArchive(a, b)
  {
    hide OnDisk, Flat, ValidPaths, ValidSha256, Joined;
    if SameArchive(a, b) {
      JoinedInjective(a.paths, b.paths);
      assert PathsOf(shards[i])[0] == PathsOf(shards[j])[0];
      ShardsApart(shards, i, j, shards[i][0], shards[j][0]);
    }
  }

  lemma {:induction false} WorldAgain(
    lib: Library, prefix: string, revision: nat, shards: seq<seq<File>>, next: Manifest, ds: seq<Blob>)
    requires |ds| == |shards|
    requires forall i :: 0 <= i < |shards| ==>
      var again := BuildShard(lib, prefix, revision, i, shards[i], next); again.Ok? && again.value.descriptor == ds[i]
    ensures var again := BuildWorld(lib, prefix, revision, shards, next); again.Ok? && DescriptorsOf(again.value) == ds
  {
    hide BuildShard;
    if shards != [] {
      var n := |shards| - 1;
      WorldAgain(lib, prefix, revision, shards[..n], next, ds[..n]);
      assert ds == ds[..n] + [ds[n]];
    }
  }

  lemma {:induction false} MarkedByDescriptors(a: seq<Archive>, b: seq<Archive>)
    requires DescriptorsOf(a) == DescriptorsOf(b)
    ensures Marked(a) == Marked(b)
  {
    hide Contains;
    assert |a| == |DescriptorsOf(a)| == |b|;
    if a != [] {
      var n := |a| - 1;
      assert DescriptorsOf(a)[n] == DescriptorsOf(b)[n];
      assert DescriptorsOf(a[..n]) == DescriptorsOf(a)[..n] == DescriptorsOf(b[..n]);
      MarkedByDescriptors(a[..n], b[..n]);
    }
  }

  /**
   Building unchanged files on top of their own manifest lists the very same archives under the very same keys,
   at whatever revision; at the same revision it gives the same manifest.
   */
  lemma RebuildIsFixed(
    lib: Library, prefix: string, c: Command, revision: nat, later: nat, files: seq<File>, previous: Manifest, draft: Draft)
    requires Syncs(lib, prefix, c, revision, files, previous)
    requires BuildManifest(lib, prefix, c, revision, files, previous) == Ok(draft)
    requires Unmarked(prefix, c, previous)
    ensures var again := BuildManifest(lib, prefix, c, later, files, draft.manifest);
      && again.Ok?
      && DescriptorsOf(again.value.archives) == DescriptorsOf(draft.archives)
      && Descriptors(again.value.manifest) == Descriptors(draft.manifest)
      && (later == revision ==> again.value.manifest == draft.manifest)
  {
    hide Syncs, Classified, BuildContent, BuildConfig, BuildWorld, BuildShard, Contains, Marked, LogicalSum,
         WorldBuilt, SoundContent;
    var m, layers := draft.manifest, Classified(files);
    var content, config, world := DraftParts(lib, prefix, c, revision, files, previous, draft);
    HeadOf(lib, c, revision, content, config, world);
    DraftLists(lib, prefix, c, revision, files, previous, draft, content, config, world);
    ContentAgain(lib, prefix, c, layers.content, previous, m, content);
    ConfigAgain(lib, prefix, revision, later, layers.config, previous, m, config);
    WorldAt(lib, prefix, revision, layers.world, previous, 0);
    forall i | 0 <= i < |world|
      ensures var again := BuildShard(lib, prefix, later, i, layers.world[i], m); again.Ok? && again.value.descriptor == world[i].descriptor
    {
      ShardAgain(lib, prefix, c, revision, later, files, previous, m, world, i);
    }
    WorldAgain(lib, prefix, later, layers.world, m, DescriptorsOf(world));
    var content2 := BuildContent(lib, prefix, c, layers.content, m).value;
    var config2 := BuildConfig(lib, prefix, later, layers.config, m).value;
    var world2 := BuildWorld(lib, prefix, later, layers.world, m).value;
    SameParts(lib, c, revision, later, content, config, world, content2, config2, world2);
  }

  lemma SameParts(lib: Library, c: Command, revision: nat, later: nat, content: Archive, config: seq<Archive>, world: seq<Archive>,
                  content2: Archive, config2: seq<Archive>, world2: seq<Archive>)
    requires content.descriptor == content2.descriptor
    requires DescriptorsOf(config) == DescriptorsOf(config2) && DescriptorsOf(world) == DescriptorsOf(world2)
    ensures DescriptorsOf([content2] + config2 + world2) == DescriptorsOf([content] + config + world)
    ensures var m, again := ManifestOf(lib, c, revision, content, config, world), ManifestOf(lib, c, later, content2, config2, world2);
      Descriptors(again) == Descriptors(m) && (later == revision ==> again == m)
  {
    hide Marked, LogicalSum;
    var a, b := [content] + config + world, [content2] + config2 + world2;
    assert |config| == |DescriptorsOf(config)| == |config2|;
    assert DescriptorsOf(a) == [content.descriptor] + DescriptorsOf(config) + DescriptorsOf(world);
    assert DescriptorsOf(b) == [content2.descriptor] + DescriptorsOf(config2) + DescriptorsOf(world2);
    assert config != [] ==> DescriptorsOf(config)[0] == config[0].descriptor && DescriptorsOf(config2)[0] == config2[0].descriptor;
    MarkedByDescriptors(a, b);
  }
}
