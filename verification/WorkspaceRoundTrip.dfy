/** Sync, then restore: what comes back, from which store, and when. */
module WorkspaceRoundTrip {
  import opened Bytes
  import opened Options
  import opened Layers
  import opened Keys
  import opened Text
  import opened Manifests
  import opened Drafts
  import opened Acceptance
  import opened Restores

  // ---------------------------------------------------------------- assumptions

  /** Reading an archive gives back the files it was written from. */
  ghost predicate ReadsBack(lib: Library)
  {
    forall files :: OnDisk(files) ==> lib.decode(lib.encode(files)) == Some(files)
  }

  /** Under its key an archive has an object of the stated size and digest. */
  predicate Stored(lib: Library, store: Store, b: Blob)
  {
    b.key in store && |store[b.key]| == b.compressedSize && lib.sha256(store[b.key]) == b.sha256
  }

  /** No two different byte strings among the stored and the staged ones of one archive share a digest. */
  ghost predicate NoCollision(lib: Library, store: Store, a: Archive)
  {
    a.staged.Some? && a.descriptor.key in store && lib.sha256(store[a.descriptor.key]) == lib.sha256(a.staged.value) ==>
      store[a.descriptor.key] == a.staged.value
  }

  ghost predicate AllStored(lib: Library, store: Store, archives: seq<Archive>)
  {
    forall i :: 0 <= i < |archives| ==> Stored(lib, store, archives[i].descriptor) && NoCollision(lib, store, archives[i])
  }

  // ---------------------------------------------------------------- archives describe their files

  ghost predicate Describes(lib: Library, a: Archive, files: seq<File>)
  {
    && a.staged == Some(lib.encode(files))
    && a.descriptor.sha256 == lib.sha256(lib.encode(files)) && a.descriptor.compressedSize == |lib.encode(files)|
    && a.descriptor.logicalSize == Size(files) && a.descriptor.paths == PathsOf(files)
  }

  lemma PathsAsSet(files: seq<File>)
    ensures PathSet(PathsOf(files)) == FilePaths(files)
  {
    forall p ensures p in PathSet(PathsOf(files)) <==> p in FilePaths(files) {
      if p in PathSet(PathsOf(files)) {
        var i :| 0 <= i < |files| && PathsOf(files)[i] == p;
        assert files[i] in files;
      }
      if p in FilePaths(files) {
        var f :| f in files && f.path == p;
        var i :| 0 <= i < |files| && files[i] == f;
        assert PathsOf(files)[i] == p;
      }
    }
  }

  lemma DescribedHolds(lib: Library, store: Store, a: Archive, files: seq<File>)
    requires ReadsBack(lib) && OnDisk(files) && Describes(lib, a, files)
    requires Stored(lib, store, a.descriptor) && NoCollision(lib, store, a)
    ensures Holds(lib, store, a.descriptor, files)
  {
    hide ValidWorkspacePath, PathsOf, Size, FilePaths;
    PathsAsSet(files);
    assert store[a.descriptor.key] == lib.encode(files);
  }

  lemma ArchiveDescribes(lib: Library, files: seq<File>, key: string)
    requires BuildArchive(lib, files).Ok?
    ensures var a := BuildArchive(lib, files).value; Describes(lib, a.(descriptor := a.descriptor.(key := key)), files)
  {
    hide Packable, Size;
  }

  lemma ReusedDescribes(lib: Library, a: Archive, b: Blob, files: seq<File>)
    requires Describes(lib, a, files) && SameArchive(b, a.descriptor) && Plain(b.paths) && Plain(PathsOf(files))
    ensures Describes(lib, a.(descriptor := b), files)
  {
    SameArchiveIsSame(b, a.descriptor);
  }

  lemma PlainOnDisk(files: seq<File>)
    requires OnDisk(files)
    ensures Plain(PathsOf(files))
  {
    hide ValidWorkspacePath;
    forall i | 0 <= i < |files| ensures PathsOf(files)[i] != "" && NUL !in PathsOf(files)[i] {
      assert files[i] in files;
      ValidNotEmpty(files[i].path);
    }
  }

  lemma ContentDescribes(
    lib: Library, prefix: string, c: Command, revision: nat, files: seq<File>, previous: Manifest, content: Archive)
    requires Syncs(lib, prefix, c, revision, files, previous)
    requires BuildContent(lib, prefix, c, Classified(files).content, previous) == Ok(content) && content.staged.Some?
    ensures Describes(lib, content, Classified(files).content)
  {
    hide Classified, BuildArchive, IsCompilerContent, ContentKey, SameArchive, OnDisk, Digests, WorkspacePrefix,
         RuntimeContent, Describes, PathsOf, Written, AllIn;
    var layer := Classified(files).content;
    LayersOnDisk(files);
    PlainOnDisk(layer);
    var a := BuildArchive(lib, layer).value;
    var keyed := a.descriptor.(key := ContentKey(prefix, a.descriptor.sha256));
    ArchiveDescribes(lib, layer, keyed.key);
    if previous.content.Some? && SameArchive(previous.content.value, keyed) {
      var was := previous.content.value;
      assert SoundContent(prefix, was);
      ContentKeyApart(prefix, was);
      assert was.key == ContentKey(prefix, was.sha256);
      WrittenPlain(was);
      ReusedDescribes(lib, a.(descriptor := keyed), was, layer);
    }
  }

  lemma WrittenPlain(b: Blob)
    requires Written(b)
    ensures Plain(b.paths)
  {
  }

  lemma ConfigDescribes(
    lib: Library, prefix: string, c: Command, revision: nat, files: seq<File>, previous: Manifest,
    config: seq<Archive>)
    requires Syncs(lib, prefix, c, revision, files, previous)
    requires BuildConfig(lib, prefix, revision, Classified(files).config, previous) == Ok(config)
    ensures config == [] <==> Classified(files).config == []
    ensures config != [] ==> |config| == 1 && Describes(lib, config[0], Classified(files).config)
  {
    hide Classified, BuildArchive, ConfigKey, SameArchive, OnDisk, Digests, WorkspacePrefix, RuntimeContent,
         Describes, PathsOf, Written, SoundContent;
    var layer := Classified(files).config;
    if layer != [] {
      LayersOnDisk(files);
      PlainOnDisk(layer);
      var a := BuildArchive(lib, layer).value;
      var keyed := a.descriptor.(key := ConfigKey(prefix, revision));
      ArchiveDescribes(lib, layer, keyed.key);
      if previous.config.Some? && SameArchive(previous.config.value, keyed) {
        WrittenPlain(previous.config.value);
        ReusedDescribes(lib, a.(descriptor := keyed), previous.config.value, layer);
      }
    }
  }

  lemma ShardDescribes(
    lib: Library, prefix: string, c: Command, revision: nat, files: seq<File>, previous: Manifest, world: seq<Archive>, i: nat)
    requires Syncs(lib, prefix, c, revision, files, previous)
    requires BuildWorld(lib, prefix, revision, Classified(files).world, previous) == Ok(world) && i < |world|
    ensures |world| == |Classified(files).world|
    ensures Describes(lib, world[i], Classified(files).world[i])
  {
    hide Classified, BuildArchive, WorldKey, Syncs, ReuseAny, Written, AllIn, PathsOf, Size, BuildWorld;
    var shards := Classified(files).world;
    WorldAt(lib, prefix, revision, shards, previous, i);
    ShardIsBuilt(lib, prefix, c, revision, files, previous, i);
    assert world[i].staged == Some(lib.encode(shards[i])) by {
      ArchiveDescribes(lib, shards[i], "");
    }
  }

  // ---------------------------------------------------------------- the groups of a draft

  function ConfigGroup(files: seq<File>): seq<seq<File>>
  {
    if Classified(files).config == [] then [] else [Classified(files).config]
  }

  function Groups(first: seq<File>, files: seq<File>): seq<seq<File>>
  {
    [first] + ConfigGroup(files) + Classified(files).world
  }

  /** Everything but the content comes from the files that were synced. */
  lemma GroupsHold(
    lib: Library, store: Store, prefix: string, c: Command, revision: nat, files: seq<File>, previous: Manifest, draft: Draft,
    first: seq<File>)
    requires Syncs(lib, prefix, c, revision, files, previous) && ReadsBack(lib)
    requires BuildManifest(lib, prefix, c, revision, files, previous) == Ok(draft) && |draft.archives| > 0
    requires AllStored(lib, store, draft.archives) && Holds(lib, store, draft.archives[0].descriptor, first)
    ensures AllHold(lib, store, DescriptorsOf(draft.archives), Groups(first, files))
  {
    hide Syncs, Classified, BuildManifest, BuildContent, BuildConfig, BuildWorld, ReadsBack, Describes, Holds, Stored,
         NoCollision, ManifestOf, OnDisk, Flat;
    var content, config, world := DraftParts(lib, prefix, c, revision, files, previous, draft);
    ConfigDescribes(lib, prefix, c, revision, files, previous, config);
    WorldAt(lib, prefix, revision, Classified(files).world, previous, 0);
    SyncsGive(lib, prefix, c, revision, files, previous);
    LayersOnDisk(files);
    var ds, groups, n := DescriptorsOf(draft.archives), Groups(first, files), 1 + |config|;
    forall i | 0 <= i < |ds| ensures Holds(lib, store, ds[i], groups[i]) {
      var a := draft.archives[i];
      assert Stored(lib, store, a.descriptor) && NoCollision(lib, store, a);
      if i >= n {
        assert a == world[i - n] && groups[i] == Classified(files).world[i - n];
        ShardDescribes(lib, prefix, c, revision, files, previous, world, i - n);
        ShardOnDisk(Classified(files).world, i - n);
        DescribedHolds(lib, store, a, groups[i]);
      } else if i == 1 {
        assert a == config[0] && groups[i] == Classified(files).config;
        DescribedHolds(lib, store, a, groups[i]);
      }
    }
  }

  lemma {:induction false} GroupPaths(lib: Library, store: Store, ds: seq<Blob>, groups: seq<seq<File>>)
    requires AllHold(lib, store, ds, groups)
    ensures AllPaths(ds) == FilePaths(Flat(groups))
  {
    if ds == [] {
      assert FilePaths(Flat(groups)) == {};
    } else {
      var n := |ds| - 1;
      assert AllHold(lib, store, ds[..n], groups[..n]);
      GroupPaths(lib, store, ds[..n], groups[..n]);
      assert Holds(lib, store, ds[n], groups[n]);
      FilePathsConcat(Flat(groups[..n]), groups[n]);
    }
  }

  lemma FilePathsConcat(a: seq<File>, b: seq<File>)
    ensures FilePaths(a + b) == FilePaths(a) + FilePaths(b)
  {
  }

  lemma FlatGroups(first: seq<File>, files: seq<File>)
    ensures Flat(Groups(first, files)) == first + Classified(files).config + Flat(Classified(files).world)
  {
    hide Classified;
    var l := Classified(files);
    FlatConcat([first] + ConfigGroup(files), l.world);
    FlatConcat([first], ConfigGroup(files));
    FlatOne(first);
    if l.config != [] {
      FlatOne(l.config);
    } else {
      assert first + l.config == first;
    }
  }

  lemma FlatOne(files: seq<File>)
    ensures Flat([files]) == files && Flat([]) == []
  {
    assert [files][..0] == [];
    assert Flat([]) + files == files;
  }

  lemma SameDisk(a: seq<File>, b: seq<File>)
    requires OnDisk(a) && OnDisk(b) && multiset(a) == multiset(b)
    ensures DiskOf(a) == DiskOf(b)
  {
    hide ValidWorkspacePath, DiskOf;
    DiskPaths(a);
    DiskPaths(b);
    assert forall f :: f in a <==> f in b by {
      assert forall f :: f in a <==> f in multiset(a);
      assert forall f :: f in b <==> f in multiset(b);
    }
    forall p | p in DiskOf(a) ensures p in DiskOf(b) && DiskOf(a)[p] == DiskOf(b)[p] {
      var f :| f in a && f.path == p;
      DiskHolds(a, f);
      DiskHolds(b, f);
    }
    forall p | p in DiskOf(b) ensures p in DiskOf(a) {
      var f :| f in b && f.path == p;
      DiskHolds(a, f);
    }
  }

  // ---------------------------------------------------------------- the theorems

  ghost predicate DraftOf(
    lib: Library, prefix: string, c: Command, revision: nat, files: seq<File>, previous: Manifest, draft: Draft)
  {
    && Syncs(lib, prefix, c, revision, files, previous)
    && BuildManifest(lib, prefix, c, revision, files, previous) == Ok(draft)
    && Accepted(lib, draft.manifest, c.(revision := revision))
  }

  lemma DraftDescriptors(
    lib: Library, prefix: string, c: Command, revision: nat, files: seq<File>, previous: Manifest, draft: Draft)
    requires DraftOf(lib, prefix, c, revision, files, previous, draft)
    ensures Descriptors(draft.manifest) == DescriptorsOf(draft.archives) && |draft.archives| > 0
  {
    hide Syncs, BuildManifest, Accepted, Unmarked, Collides, ManifestOf, Classified, BuildContent, BuildConfig, BuildWorld,
         SoundContent, WorldBuilt, Descriptors, FitsLimits;
    DraftAcceptedExactly(lib, prefix, c, revision, files, previous, draft);
    var content, config, world := DraftParts(lib, prefix, c, revision, files, previous, draft);
    DraftLists(lib, prefix, c, revision, files, previous, draft, content, config, world);
  }

  /**
   A workspace without compiler-owned content comes back exactly: the same paths with the same bytes, wherever
   unchanged archives were published and in whatever order the files were collected.
   */
  lemma WorkspaceComesBack(
    lib: Library, store: Store, prefix: string, c: Command, revision: nat, files: seq<File>, previous: Manifest, draft: Draft)
    requires DraftOf(lib, prefix, c, revision, files, previous, draft) && ReadsBack(lib) && Tree(FilePaths(files))
    requires AllStored(lib, store, draft.archives) && |draft.archives| > 0 && draft.archives[0].staged.Some?
    ensures Restore(lib, store, draft.manifest, c.(revision := revision)) == Ok(DiskOf(files))
  {
    hide Syncs, Classified, BuildManifest, BuildContent, Accepted, ReadsBack, Describes, Holds, Stored, NoCollision,
         Tree, OnDisk, AllHold, Groups, Restore, DiskOf, Flat, FilePaths, DescriptorsOf, Descriptors, ManifestOf,
         AllPaths;
    var layers := Classified(files);
    DraftDescriptors(lib, prefix, c, revision, files, previous, draft);
    var content, config, world := DraftParts(lib, prefix, c, revision, files, previous, draft);
    assert draft.archives[0] == content;
    ContentDescribes(lib, prefix, c, revision, files, previous, content);
    SyncsGive(lib, prefix, c, revision, files, previous);
    LayersOnDisk(files);
    assert Stored(lib, store, content.descriptor) && NoCollision(lib, store, content);
    DescribedHolds(lib, store, content, layers.content);
    GroupsHold(lib, store, prefix, c, revision, files, previous, draft, layers.content);
    var groups := Groups(layers.content, files);
    GroupPaths(lib, store, Descriptors(draft.manifest), groups);
    FlatGroups(layers.content, files);
    AllFilesOnDisk(files);
    assert FilePaths(Flat(groups)) == FilePaths(files) && DiskOf(Flat(groups)) == DiskOf(files) by {
      SameDisk(Flat(groups), files);
      DiskPaths(Flat(groups));
      DiskPaths(files);
    }
    RestoreExact(lib, store, draft.manifest, c.(revision := revision), groups);
  }

  lemma AllFilesOnDisk(files: seq<File>)
    requires OnDisk(files)
    ensures var l := Classified(files); var all := l.content + l.config + Flat(l.world); multiset(all) == multiset(files) && OnDisk(all)
  {
    hide Classified, OnDisk, Flat;
    ClassifiedPartitions(files);
    var l := Classified(files);
    SubsetOnDisk(l.content + l.config + Flat(l.world), files);
  }

  /**
   Over compiler-owned content the restored disk is that content, then the config of the workspace over it, then
   the world. It can be restored exactly if no path of these is both a file and a directory.
   */
  lemma WorkspaceOverContent(
    lib: Library, store: Store, prefix: string, c: Command, revision: nat, files: seq<File>, previous: Manifest, draft: Draft,
    content: seq<File>)
    requires DraftOf(lib, prefix, c, revision, files, previous, draft) && ReadsBack(lib)
    requires AllStored(lib, store, draft.archives) && |draft.archives| > 0
    requires Holds(lib, store, draft.archives[0].descriptor, content)
    ensures var l := Classified(files); var r := Restore(lib, store, draft.manifest, c.(revision := revision));
      && (r.Ok? <==> Tree(FilePaths(content) + FilePaths(l.config) + FilePaths(Flat(l.world))))
      && (r.Ok? ==> r.value == DiskOf(content) + DiskOf(l.config) + DiskOf(Flat(l.world)))
  {
    hide Syncs, Classified, BuildManifest, Accepted, ReadsBack, Holds, Stored, NoCollision, Tree, OnDisk, AllHold,
         Groups, Restore, DiskOf, Flat, FilePaths, DescriptorsOf, Descriptors, ManifestOf, AllPaths;
    var l := Classified(files);
    DraftDescriptors(lib, prefix, c, revision, files, previous, draft);
    GroupsHold(lib, store, prefix, c, revision, files, previous, draft, content);
    var groups := Groups(content, files);
    GroupPaths(lib, store, Descriptors(draft.manifest), groups);
    FlatGroups(content, files);
    FilePathsConcat(content + l.config, Flat(l.world));
    FilePathsConcat(content, l.config);
    DiskConcat(content + l.config, Flat(l.world));
    DiskConcat(content, l.config);
    RestoreExact(lib, store, draft.manifest, c.(revision := revision), groups);
  }

  // ---------------------------------------------------------------- when the content is taken from the files

  /**
   Once a service has content of its own, a sync archives that content again exactly if no account or service on
   the way to its objects is named like the compiler's directory; otherwise the old content stays for good.
   */
  lemma OwnContentIsRepublished(
    lib: Library, prefix: string, c: Command, revision: nat, files: seq<File>, previous: Manifest, draft: Draft)
    requires Syncs(lib, prefix, c, revision, files, previous) && c.runtimeContent.None?
    requires previous.content.Some? && previous.content.value.key == ContentKey(prefix, previous.content.value.sha256)
    requires BuildManifest(lib, prefix, c, revision, files, previous) == Ok(draft)
    ensures |draft.archives| > 0
    ensures draft.archives[0].staged.Some? <==> !Contains(prefix + "/", COMPILER_MARK)
    ensures Contains(prefix + "/", COMPILER_MARK) ==> draft.manifest.content == previous.content
  {
    hide Classified, BuildConfig, BuildWorld, BuildManifest, Contains, OnDisk, Digests, WorkspacePrefix, ContentKey,
         ManifestOf, HasSuffix, SameArchive, AllIn, ValidPaths, Plain;
    var was := previous.content.value;
    var content, config, world := DraftParts(lib, prefix, c, revision, files, previous, draft);
    HeadOf(lib, c, revision, content, config, world);
    assert SoundContent(prefix, was);
    assert "/" + "compiler-content" + "/" == COMPILER_MARK;
    OwnKeyMarked(prefix, was.sha256, "compiler-content");
    ContentKeyStarts(prefix, was.sha256);
  }
}
