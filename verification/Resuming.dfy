/** The staged sync descriptor: what is read back after a restart, and when a sync can go on from it. */
module Resuming {
  import opened Bytes
  import opened Options
  import opened Layers
  import opened Keys
  import opened Manifests
  import opened Drafts
  import opened Acceptance
  import opened WorkspaceRoundTrip
  import opened Json
  import opened Rereading
  import opened Indexing

  /** An archive of the descriptor; without a file it is one the compiler published. */
  datatype SyncArchive = SyncArchive(file: Option<string>, descriptor: Blob)

  datatype SyncDescriptor = SyncDescriptor(
    commandId: string, assignmentId: string, revision: int, manifest: Manifest, manifestSha: string, archives: seq<SyncArchive>)

  /** The files of the staging directory. */
  type Files = map<string, Bytes>

  // ---------------------------------------------------------------- what is demanded of it

  predicate Intact(lib: Library, files: Files, file: string, b: Blob)
  {
    && file in files && |files[file]| <= MAX_BLOB_BYTES
    && |files[file]| == b.compressedSize && lib.sha256(files[file]) == b.sha256
  }

  predicate Named(d: SyncDescriptor, commandId: string, c: Command, revision: int)
  {
    && d.commandId == commandId && d.assignmentId == c.assignmentId && d.revision == revision
    && d.manifest.serviceId == c.serviceId && d.manifest.assignmentId == c.assignmentId && d.manifest.revision == revision
    && ValidSha256(d.manifestSha)
  }

  /** An archive stands for a listed descriptor of its key, and its file has not changed. */
  ghost predicate StandsFor(lib: Library, files: Files, a: SyncArchive, ds: seq<Blob>)
  {
    exists b :: b in ds && b.key == a.descriptor.key && SameArchive(b, a.descriptor) &&
                (a.file.Some? ==> Intact(lib, files, a.file.value, b))
  }

  ghost predicate Loadable(
    lib: Library, write: Manifest -> Bytes, files: Files, d: SyncDescriptor, commandId: string, c: Command, revision: int)
  {
    var ds := Descriptors(d.manifest);
    && Named(d, commandId, c, revision)
    && Accepted(lib, d.manifest, c.(revision := revision))
    && lib.sha256(write(d.manifest)) == d.manifestSha
    && |d.archives| == |ds|
    && forall i :: 0 <= i < |d.archives| ==> StandsFor(lib, files, d.archives[i], ds)
  }

  // ---------------------------------------------------------------- the loops of `loadSyncDescriptor`

  function KeyOf(b: Blob): string
  {
    b.key
  }

  method IndexDescriptors(ds: seq<Blob>) returns (expected: map<string, Blob>)
    requires KeysDiffer(ds)
    ensures Indexed(KeyOf, ds, expected) && |expected| == |ds|
  {
    hide Indexed;
    expected := map[];
    assert Indexed(KeyOf, ds[..0], expected) by {
      NothingIndexed(ds);
    }
    for k := 0 to |ds|
      invariant Indexed(KeyOf, ds[..k], expected) && |expected| == k
    {
      IndexedHas(KeyOf, ds, k, expected, ds[k].key);
      assert forall i :: 0 <= i < k ==> KeyOf(ds[i]) != ds[k].key;
      IndexedStep(KeyOf, ds, k, expected);
      expected := expected[ds[k].key := ds[k]];
    }
    assert ds[..|ds|] == ds;
  }

  lemma NothingIndexed(ds: seq<Blob>)
    ensures Indexed(KeyOf, ds[..0], map[])
  {
  }

  lemma StandsForExpected(lib: Library, files: Files, a: SyncArchive, ds: seq<Blob>, expected: map<string, Blob>)
    requires Indexed(KeyOf, ds, expected) && KeysDiffer(ds)
    ensures StandsFor(lib, files, a, ds) <==>
        && a.descriptor.key in expected
        && SameArchive(expected[a.descriptor.key], a.descriptor)
        && (a.file.Some? ==> Intact(lib, files, a.file.value, expected[a.descriptor.key]))
  {
    hide SameArchive, Intact;
    if StandsFor(lib, files, a, ds) {
      var b :| b in ds && b.key == a.descriptor.key && SameArchive(b, a.descriptor) &&
               (a.file.Some? ==> Intact(lib, files, a.file.value, b));
      var i :| 0 <= i < |ds| && ds[i] == b;
      assert expected[a.descriptor.key] == b;
    }
    if a.descriptor.key in expected {
      assert expected[a.descriptor.key] in ds;
    }
  }

  method LoadSyncDescriptor(
    lib: Library, write: Manifest -> Bytes, files: Files, d: SyncDescriptor, commandId: string, c: Command, revision: int)
    returns (ok: bool)
    ensures ok <==> Loadable(lib, write, files, d, commandId, c, revision)
  {
    hide Accepted, StandsFor, ValidSha256, Joined;
    if d.commandId != commandId || d.assignmentId != c.assignmentId || d.revision != revision ||
       d.manifest.serviceId != c.serviceId || d.manifest.assignmentId != c.assignmentId ||
       d.manifest.revision != revision || !ValidSha256(d.manifestSha) {
      return false;
    }
    var accepted := ValidateManifest(lib, d.manifest, c.(revision := revision));
    if !accepted || lib.sha256(write(d.manifest)) != d.manifestSha {
      return false;
    }
    var ds := Descriptors(d.manifest);
    AcceptedKeys(lib, d.manifest, c.(revision := revision));
    var expected := IndexDescriptors(ds);
    if |d.archives| != |expected| {
      return false;
    }
    for k := 0 to |d.archives|
      invariant forall i :: 0 <= i < k ==> StandsFor(lib, files, d.archives[i], ds)
    {
      var a := d.archives[k];
      StandsForExpected(lib, files, a, ds, expected);
      if a.descriptor.key !in expected {
        return false;
      }
      var b := expected[a.descriptor.key];
      if b.sha256 != a.descriptor.sha256 || b.compressedSize != a.descriptor.compressedSize ||
         b.logicalSize != a.descriptor.logicalSize || Joined(b.paths) != Joined(a.descriptor.paths) {
        return false;
      }
      if a.file.Some? && (a.file.value !in files || |files[a.file.value]| > 4294967296 ||
                          |files[a.file.value]| != b.compressedSize || lib.sha256(files[a.file.value]) != b.sha256) {
        return false;
      }
    }
    return true;
  }

  lemma AcceptedKeys(lib: Library, m: Manifest, c: Command)
    requires Accepted(lib, m, c)
    ensures KeysDiffer(Descriptors(m))
  {
  }

  lemma AcceptedSize(lib: Library, m: Manifest, c: Command, i: nat)
    requires Accepted(lib, m, c) && i < |Descriptors(m)|
    ensures Descriptors(m)[i].compressedSize <= MAX_BLOB_BYTES
  {
    hide Headed, Layered, WorkspacePrefix, LogicalSum, CompressedSum, AllPaths, KeysDiffer, PathsMeetOnlyInOverlay,
         Descriptors;
    assert ValidDescriptor(Descriptors(m)[i]);
  }

  // ---------------------------------------------------------------- what the agent staged can be taken up

  /**
   The files that `Sync` leaves in the staging directory for a draft, and its descriptor as it is decoded later. The
   digest of the manifest was taken before.
   */
  ghost predicate Saves(
    lib: Library, write: Manifest -> Bytes, files: Files, d: SyncDescriptor, commandId: string, c: Command, revision: nat, draft: Draft)
  {
    && d.commandId == commandId && d.assignmentId == c.assignmentId && d.revision == revision
    && d.manifest == Scrubbed(draft.manifest) && d.manifestSha == lib.sha256(write(draft.manifest))
    && |d.archives| == |draft.archives|
    && forall i :: 0 <= i < |draft.archives| ==> SavedAs(files, d.archives[i], draft.archives[i])
  }

  ghost predicate SavedAs(files: Files, saved: SyncArchive, a: Archive)
  {
    && saved.descriptor == ScrubBlob(a.descriptor) && (saved.file.Some? <==> a.staged.Some?)
    && (saved.file.Some? ==> saved.file.value in files && files[saved.file.value] == a.staged.value)
  }

  /** A staged archive has the size and the digest of its descriptor, also where the descriptor is an older one. */
  lemma StagedMatches(
    lib: Library, prefix: string, c: Command, revision: nat, files: seq<File>, previous: Manifest, draft: Draft, i: nat)
    requires Syncs(lib, prefix, c, revision, files, previous)
    requires BuildManifest(lib, prefix, c, revision, files, previous) == Ok(draft)
    requires i < |draft.archives| && draft.archives[i].staged.Some?
    ensures var a := draft.archives[i];
      |a.staged.value| == a.descriptor.compressedSize && lib.sha256(a.staged.value) == a.descriptor.sha256
  {
    hide Syncs, Classified, BuildManifest, BuildContent, BuildConfig, BuildWorld, PathsOf, Size;
    var content, config, world := DraftParts(lib, prefix, c, revision, files, previous, draft);
    ConfigDescribes(lib, prefix, c, revision, files, previous, config);
    var n := 1 + |config|;
    if i == 0 {
      ContentDescribes(lib, prefix, c, revision, files, previous, content);
    } else if i >= n {
      assert draft.archives[i] == world[i - n];
      ShardDescribes(lib, prefix, c, revision, files, previous, world, i - n);
    } else {
      assert draft.archives[i] == config[0];
    }
  }

  /** A draft of text is decoded as it was. */
  lemma TextResumes(
    lib: Library, write: Manifest -> Bytes, staged: Files, d: SyncDescriptor, commandId: string,
    prefix: string, c: Command, revision: nat, files: seq<File>, previous: Manifest, draft: Draft)
    requires DraftOf(lib, prefix, c, revision, files, previous, draft) && TextLists(Descriptors(draft.manifest))
    requires Saves(lib, write, staged, d, commandId, c, revision, draft)
    ensures Loadable(lib, write, staged, d, commandId, c, revision)
  {
    hide Syncs, BuildManifest, Accepted, Descriptors, SameArchive, Scrubbed, ScrubBlob, TextPaths;
    DraftDescriptors(lib, prefix, c, revision, files, previous, draft);
    ScrubbedFixed(draft.manifest);
    NamedDraft(lib, write, staged, d, commandId, prefix, c, revision, files, previous, draft);
    var ds := Descriptors(draft.manifest);
    forall i | 0 <= i < |d.archives| ensures StandsFor(lib, staged, d.archives[i], ds) {
      var a := draft.archives[i];
      assert SavedAs(staged, d.archives[i], a);
      assert ds[i] == a.descriptor;
      ScrubBlobFixed(a.descriptor);
      SameAsItself(a.descriptor);
      if a.staged.Some? {
        AcceptedSize(lib, draft.manifest, c.(revision := revision), i);
        StagedMatches(lib, prefix, c, revision, files, previous, draft, i);
      }
    }
  }

  /**
   After a restart the staged draft is taken up, with its very manifest, if and only if that manifest is acceptable and
   lists only text; otherwise every later attempt of the command is refused.
   */
  lemma StagedDraftResumesExactly(
    lib: Library, write: Manifest -> Bytes, staged: Files, d: SyncDescriptor, commandId: string,
    prefix: string, c: Command, revision: nat, files: seq<File>, previous: Manifest, draft: Draft)
    requires Syncs(lib, prefix, c, revision, files, previous)
    requires BuildManifest(lib, prefix, c, revision, files, previous) == Ok(draft) && AggregateTells(lib, draft.manifest)
    requires Saves(lib, write, staged, d, commandId, c, revision, draft)
    ensures Loadable(lib, write, staged, d, commandId, c, revision) <==>
      Accepted(lib, draft.manifest, c.(revision := revision)) && TextInputs(c, previous, files)
  {
    hide Syncs, BuildManifest, Accepted, Descriptors, SavedAs, Scrubbed, TextLists, TextInputs, AggregateTells, StandsFor, Unmarked, Collides,
         FitsLimits;
    OwnAggregate(lib, prefix, c, revision, files, previous, draft);
    ReadBackAccepted(lib, draft.manifest, c.(revision := revision));
    DraftAcceptedExactly(lib, prefix, c, revision, files, previous, draft);
    PublishedAcceptedExactly(lib, prefix, c, revision, files, previous, draft);
    if Accepted(lib, draft.manifest, c.(revision := revision)) && TextInputs(c, previous, files) {
      TextResumes(lib, write, staged, d, commandId, prefix, c, revision, files, previous, draft);
    }
  }

  lemma NamedDraft(
    lib: Library, write: Manifest -> Bytes, staged: Files, d: SyncDescriptor, commandId: string,
    prefix: string, c: Command, revision: nat, files: seq<File>, previous: Manifest, draft: Draft)
    requires Syncs(lib, prefix, c, revision, files, previous)
    requires BuildManifest(lib, prefix, c, revision, files, previous) == Ok(draft)
    requires Saves(lib, write, staged, d, commandId, c, revision, draft)
    ensures Named(d, commandId, c, revision)
  {
    hide BuildManifest, OnDisk, Sound, WorkspacePrefix, RuntimeContent, ValidSha256, Classified, ManifestOf, SavedAs;
    var content, config, world := DraftParts(lib, prefix, c, revision, files, previous, draft);
    HeadOf(lib, c, revision, content, config, world);
  }
}
