/** Inputs at which what one would expect of a workspace does not come true. */
module FailingInputs {
  import opened Bytes
  import opened Options
  import opened Sorting
  import opened Layers
  import opened Keys
  import opened Text
  import opened Manifests
  import opened Drafts
  import opened Acceptance
  import opened Restores
  import opened WorkspaceRoundTrip
  import opened Json
  import opened Rereading
  import opened History
  import opened Resuming
  import opened Collision

  // ---------------------------------------------------------------- a workspace of one file

  lemma OneFileLayers(f: File)
    requires LayerOf(f.path) != World
    ensures Classified([f]) == if LayerOf(f.path) == Config then Layering([], [f], []) else Layering([f], [], [])
  {
    hide LayerOf, GroupOf, Sort, FileLess, Select, StringLess;
    SelectOfTwo(InLayer(Content), f, f);
    SelectOfTwo(InLayer(Config), f, f);
    SortOne(f);
    SortNone();
    NoKeys(f);
  }

  lemma NoKeys(f: File)
    requires LayerOf(f.path) != World
    ensures WorldShards([f], Sort(StringLess, GroupKeys([f]))) == []
  {
    hide LayerOf, GroupOf;
    assert [f][..0] == [] && GroupKeys([f]) == [];
    assert Sort(StringLess, []) == [];
  }

  lemma OneFileOnDisk(f: File)
    requires ValidWorkspacePath(f.path) && NUL !in f.path
    ensures OnDisk([f])
  {
  }

  lemma OneFileArchive(lib: Library, f: File)
    requires ValidWorkspacePath(f.path) && |f.data| <= MAX_WORKSPACE_BYTES && |lib.encode([f])| <= MAX_BLOB_BYTES
    ensures BuildArchive(lib, [f]).Ok?
    ensures var b := BuildArchive(lib, [f]).value.descriptor;
      && b.sha256 == lib.sha256(lib.encode([f])) && b.compressedSize == |lib.encode([f])|
      && b.paths == [f.path] && b.logicalSize == |f.data|
  {
    hide ValidWorkspacePath;
    SizeAppend([], f);
    assert [] + [f] == [f];
  }

  // ---------------------------------------------------------------- a file where the config has a directory

  const CONFIG_FILE := "config/a"

  lemma ConfigFilePath()
    ensures LayerOf(CONFIG_FILE) == Config && ValidWorkspacePath(CONFIG_FILE) && NUL !in CONFIG_FILE
  {
    hide Split;
    SplitJoined(CONFIG, '/', "a");
    SinglePart(CONFIG, '/');
    SinglePart("a", '/');
    assert CONFIG + "/" + "a" == CONFIG_FILE;
    assert Split(CONFIG_FILE, '/') == [CONFIG, "a"];
  }

  lemma PathCountOf(b: Blob, cfg: Blob, p: Path)
    requires cfg.paths == [p]
    ensures |AllPaths([b, cfg])| <= |b.paths| + 1 && LogicalSum([b, cfg]) == b.logicalSize + cfg.logicalSize
    ensures CompressedSum([b, cfg]) == b.compressedSize + cfg.compressedSize
    ensures AllPaths([b, cfg]) == PathSet(b.paths) + {p}
  {
    assert [b, cfg][..1] == [b] && [b][..0] == [];
    assert AllPaths([]) == {} && AllPaths([b]) == PathSet(b.paths);
    assert LogicalSum([]) == 0 && LogicalSum([b]) == b.logicalSize;
    assert CompressedSum([]) == 0 && CompressedSum([b]) == b.compressedSize;
    assert PathSet([p]) == {p};
    PathCount(b.paths);
  }

  /** What the sync of that one file over a runtime builds. */
  lemma OverRuntimeBuilds(lib: Library, prefix: string, c: Command, revision: nat, data: Bytes, b: Blob)
    returns (draft: Draft, cfg: Blob)
    requires c.runtimeContent == Some(b) && |data| <= MAX_WORKSPACE_BYTES
    requires |lib.encode([File(CONFIG_FILE, data)])| <= MAX_BLOB_BYTES
    ensures BuildManifest(lib, prefix, c, revision, [File(CONFIG_FILE, data)], NO_MANIFEST) == Ok(draft)
    ensures DescriptorsOf(draft.archives) == [b, cfg] && cfg.paths == [CONFIG_FILE] && cfg.logicalSize == |data|
    ensures cfg.compressedSize <= MAX_BLOB_BYTES
    ensures Classified([File(CONFIG_FILE, data)]).world == [] && OnDisk([File(CONFIG_FILE, data)])
  {
    hide Classified, ConfigKey, ManifestOf, BuildArchive, ValidWorkspacePath, LayerOf, OnDisk;
    var f := File(CONFIG_FILE, data);
    ConfigFilePath();
    OneFileLayers(f);
    OneFileOnDisk(f);
    OneFileArchive(lib, f);
    draft := BuildManifest(lib, prefix, c, revision, [f], NO_MANIFEST).value;
    cfg := BuildArchive(lib, [f]).value.descriptor.(key := ConfigKey(prefix, revision));
    assert |draft.archives| == 2 && draft.archives[0].descriptor == b && draft.archives[1].descriptor == cfg;
  }

  lemma OverRuntimeFits(prefix: string, c: Command, b: Blob, cfg: Blob)
    requires RuntimeContent(prefix, b) && |b.paths| < MAX_ARCHIVE_ENTRIES && b.logicalSize + cfg.logicalSize <= WorkspaceLimit(c)
    requires cfg.paths == [CONFIG_FILE] && cfg.logicalSize <= MAX_WORKSPACE_BYTES && cfg.compressedSize <= MAX_BLOB_BYTES
    ensures FitsLimits(c, [b, cfg])
  {
    hide RuntimeContent, LogicalSum, CompressedSum, AllPaths;
    PathCountOf(b, cfg, CONFIG_FILE);
    RuntimeSized(prefix, b);
  }

  /** A restore accepts it. */
  lemma OverRuntimeAccepted(lib: Library, prefix: string, c: Command, revision: nat, data: Bytes, b: Blob) returns (draft: Draft)
    requires Digests(lib) && WorkspacePrefix(c) == Ok(prefix) && c.assignmentId != "" && c.runtimeContent == Some(b)
    requires RuntimeContent(prefix, b) && ValidPaths(b.paths) && !Contains(b.key, WORLD_MARK)
    requires |b.paths| < MAX_ARCHIVE_ENTRIES && b.logicalSize + |data| <= WorkspaceLimit(c) && |data| <= MAX_WORKSPACE_BYTES
    requires |lib.encode([File(CONFIG_FILE, data)])| <= MAX_BLOB_BYTES
    ensures BuildManifest(lib, prefix, c, revision, [File(CONFIG_FILE, data)], NO_MANIFEST) == Ok(draft)
    ensures Accepted(lib, draft.manifest, c.(revision := revision))
    ensures |Descriptors(draft.manifest)| == 2 && Descriptors(draft.manifest)[0] == b
    ensures AllPaths(Descriptors(draft.manifest)) == PathSet(b.paths) + {CONFIG_FILE}
  {
    hide Classified, RuntimeContent, ValidPaths, Contains, Accepted, Digests, WorkspacePrefix, AllPaths, Collides, Unmarked,
         BuildManifest, FitsLimits, OnDisk, Sound, DescriptorsOf, Descriptors;
    var f := [File(CONFIG_FILE, data)];
    var cfg;
    draft, cfg := OverRuntimeBuilds(lib, prefix, c, revision, data, b);
    NothingSound(prefix);
    assert Syncs(lib, prefix, c, revision, f, NO_MANIFEST);
    NoShardsNoCollision(lib, prefix, revision, f);
    RuntimeUnmarked(prefix, c, b);
    OverRuntimeFits(prefix, c, b, cfg);
    DraftAcceptedExactly(lib, prefix, c, revision, f, NO_MANIFEST, draft);
    assert DraftOf(lib, prefix, c, revision, f, NO_MANIFEST, draft);
    DraftDescriptors(lib, prefix, c, revision, f, NO_MANIFEST, draft);
    PathCountOf(b, cfg, CONFIG_FILE);
  }

  lemma NothingSound(prefix: string)
    ensures Sound(prefix, NO_MANIFEST)
  {
  }

  lemma NoShardsNoCollision(lib: Library, prefix: string, revision: nat, files: seq<File>)
    requires Classified(files).world == []
    ensures !Collides(lib, prefix, revision, files, NO_MANIFEST)
  {
  }

  lemma RuntimeUnmarked(prefix: string, c: Command, b: Blob)
    requires c.runtimeContent == Some(b) && !Contains(b.key, WORLD_MARK)
    ensures Unmarked(prefix, c, NO_MANIFEST)
  {
  }

  lemma RuntimeSized(prefix: string, b: Blob)
    requires RuntimeContent(prefix, b)
    ensures Sized(b) && b.compressedSize <= MAX_BLOB_BYTES && 0 <= b.logicalSize
  {
  }

  /**
   The runtime has a file `config` and the workspace a file `config/a`. The sync is accepted; with every object
   intact, its manifest still cannot be restored.
   */
  lemma ConfigFileBlocksDirectory(
    lib: Library, store: Store, prefix: string, c: Command, revision: nat, data: Bytes, b: Blob, content: seq<File>)
    returns (draft: Draft)
    requires Digests(lib) && WorkspacePrefix(c) == Ok(prefix) && c.assignmentId != "" && c.runtimeContent == Some(b)
    requires RuntimeContent(prefix, b) && ValidPaths(b.paths) && !Contains(b.key, WORLD_MARK) && CONFIG in b.paths
    requires |b.paths| < MAX_ARCHIVE_ENTRIES && b.logicalSize + |data| <= WorkspaceLimit(c) && |data| <= MAX_WORKSPACE_BYTES
    requires |lib.encode([File(CONFIG_FILE, data)])| <= MAX_BLOB_BYTES
    ensures BuildManifest(lib, prefix, c, revision, [File(CONFIG_FILE, data)], NO_MANIFEST) == Ok(draft)
    ensures Accepted(lib, draft.manifest, c.(revision := revision)) && |Descriptors(draft.manifest)| == 2
    ensures AllHold(lib, store, Descriptors(draft.manifest), [content, [File(CONFIG_FILE, data)]]) ==>
      Restore(lib, store, draft.manifest, c.(revision := revision)).Failed?
  {
    hide RuntimeContent, ValidPaths, Contains, Accepted, Digests, WorkspacePrefix, AllPaths, BuildManifest, AllHold, Restore,
         Descriptors;
    draft := OverRuntimeAccepted(lib, prefix, c, revision, data, b);
    var groups := [content, [File(CONFIG_FILE, data)]];
    if AllHold(lib, store, Descriptors(draft.manifest), groups) {
      RestoreExact(lib, store, draft.manifest, c.(revision := revision), groups);
      assert Clash(CONFIG, CONFIG_FILE);
      assert !Tree(AllPaths(Descriptors(draft.manifest)));
    }
  }

  // ---------------------------------------------------------------- a service named like the compiler's directory

  const COMPILER_NAME := "compiler-content"

  lemma NamedCompilerIsMarked(c: Command, prefix: string)
    requires WorkspacePrefix(c) == Ok(prefix) && (c.accountId == COMPILER_NAME || c.serviceId == COMPILER_NAME)
    ensures Contains(prefix + "/", COMPILER_MARK)
  {
    var s := prefix + "/";
    if c.serviceId == COMPILER_NAME {
      var front := "shared-hosting/" + c.accountId;
      assert s == front + COMPILER_MARK;
      assert s[|front|..|front| + |COMPILER_MARK|] == COMPILER_MARK;
      assert OccursAt(s, COMPILER_MARK, |front|);
    } else {
      var front := "shared-hosting";
      assert s == front + COMPILER_MARK + (c.serviceId + "/");
      assert s[|front|..|front| + |COMPILER_MARK|] == COMPILER_MARK;
      assert OccursAt(s, COMPILER_MARK, |front|);
    }
  }

  const CONTENT_FILE := "a"

  lemma ContentFilePath()
    ensures LayerOf(CONTENT_FILE) == Content && ValidWorkspacePath(CONTENT_FILE) && NUL !in CONTENT_FILE
  {
    hide Split;
    SinglePart("a", '/');
  }

  lemma OneContentFile(lib: Library, prefix: string, c: Command, revision: nat, data: Bytes, previous: Manifest)
    requires |data| <= MAX_WORKSPACE_BYTES && |lib.encode([File(CONTENT_FILE, data)])| <= MAX_BLOB_BYTES
    ensures OnDisk([File(CONTENT_FILE, data)]) && BuildManifest(lib, prefix, c, revision, [File(CONTENT_FILE, data)], previous).Ok?
    ensures Classified([File(CONTENT_FILE, data)]).content == [File(CONTENT_FILE, data)]
  {
    hide Classified, IsCompilerContent, SameArchive, ContentKey, ManifestOf;
    var f := File(CONTENT_FILE, data);
    ContentFilePath();
    OneFileLayers(f);
    OneFileOnDisk(f);
    OneFileArchive(lib, f);
  }

  /**
   A service named `compiler-content` syncs the content `x` and later, at any revision, the content `y`: the second
   manifest still lists the archive of `x`.
   */
  lemma OldContentStays(
    lib: Library, prefix: string, c: Command, revision: nat, later: nat, x: Bytes, y: Bytes) returns (first: Draft, second: Draft)
    requires Digests(lib) && WorkspacePrefix(c) == Ok(prefix) && c.assignmentId != "" && c.runtimeContent.None?
    requires c.serviceId == COMPILER_NAME || c.accountId == COMPILER_NAME
    requires |x| <= MAX_WORKSPACE_BYTES && |lib.encode([File(CONTENT_FILE, x)])| <= MAX_BLOB_BYTES
    requires |y| <= MAX_WORKSPACE_BYTES && |lib.encode([File(CONTENT_FILE, y)])| <= MAX_BLOB_BYTES
    ensures BuildManifest(lib, prefix, c, revision, [File(CONTENT_FILE, x)], NO_MANIFEST) == Ok(first)
    ensures BuildManifest(lib, prefix, c, later, [File(CONTENT_FILE, y)], first.manifest) == Ok(second)
    ensures second.manifest.content == first.manifest.content && second.manifest.content.Some?
    ensures second.manifest.content.value.sha256 == lib.sha256(lib.encode([File(CONTENT_FILE, x)]))
  {
    hide Classified, Contains, BuildManifest, BuildConfig, BuildWorld, ContentKey, ManifestOf, Digests, WorkspacePrefix, HasSuffix,
         ValidSha256, IsCompilerContent, OnDisk;
    var f := [File(CONTENT_FILE, x)];
    OneContentFile(lib, prefix, c, revision, x, NO_MANIFEST);
    first := BuildManifest(lib, prefix, c, revision, f, NO_MANIFEST).value;
    OneContentFile(lib, prefix, c, later, y, first.manifest);
    second := BuildManifest(lib, prefix, c, later, [File(CONTENT_FILE, y)], first.manifest).value;
    var content, config, world := DraftParts(lib, prefix, c, revision, f, NO_MANIFEST, first);
    HeadOf(lib, c, revision, content, config, world);
    var b := content.descriptor;
    assert b.key == ContentKey(prefix, b.sha256) && b.sha256 == lib.sha256(lib.encode(f));
    DigestValid(lib, f);
    LooksCompiled(prefix, c, b);
    var content2, config2, world2 := DraftParts(lib, prefix, c, later, [File(CONTENT_FILE, y)], first.manifest, second);
    HeadOf(lib, c, later, content2, config2, world2);
  }

  /** Its own content is taken for the compiler's. */
  lemma LooksCompiled(prefix: string, c: Command, b: Blob)
    requires WorkspacePrefix(c) == Ok(prefix) && (c.serviceId == COMPILER_NAME || c.accountId == COMPILER_NAME)
    requires b.key == ContentKey(prefix, b.sha256) && ValidSha256(b.sha256)
    ensures IsCompilerContent(b)
  {
    hide Contains, WorkspacePrefix, HasSuffix, ValidSha256;
    NamedCompilerIsMarked(c, prefix);
    assert "/" + COMPILER_NAME + "/" == COMPILER_MARK;
    OwnKeyMarked(prefix, b.sha256, COMPILER_NAME);
    ContentKeyStarts(prefix, b.sha256);
  }

  lemma DigestValid(lib: Library, files: seq<File>)
    requires Digests(lib)
    ensures ValidSha256(lib.sha256(lib.encode(files)))
  {
  }

  // ---------------------------------------------------------------- a staged draft that is never taken up

  lemma EmptyBuilds(lib: Library, prefix: string, c: Command, revision: nat)
    requires c.runtimeContent.None? && |lib.encode([])| <= MAX_BLOB_BYTES
    ensures BuildManifest(lib, prefix, c, revision, [], NO_MANIFEST).Ok?
  {
    hide ManifestOf, Classified, ContentKey;
    NoFiles();
    assert BuildArchive(lib, []).Ok?;
  }

  /** An empty workspace of a service or account named `world` is staged, and refused when it is to be taken up. */
  lemma WorldDraftNotTakenUp(
    lib: Library, write: Manifest -> Bytes, staged: Files, d: SyncDescriptor, commandId: string,
    prefix: string, c: Command, revision: nat) returns (draft: Draft)
    requires Digests(lib) && WorkspacePrefix(c) == Ok(prefix) && c.assignmentId != "" && c.runtimeContent.None?
    requires (c.serviceId == WORLD || c.accountId == WORLD) && |lib.encode([])| <= MAX_BLOB_BYTES
    ensures BuildManifest(lib, prefix, c, revision, [], NO_MANIFEST) == Ok(draft)
    ensures Saves(lib, write, staged, d, commandId, c, revision, draft) && AggregateTells(lib, draft.manifest) ==>
      !Loadable(lib, write, staged, d, commandId, c, revision)
  {
    hide Digests, WorkspacePrefix, Contains, Loadable, Saves, ManifestOf, BuildManifest, Sound, AggregateTells, TextInputs, Accepted, Scrubbed;
    NothingSound(prefix);
    EmptyBuilds(lib, prefix, c, revision);
    draft := BuildManifest(lib, prefix, c, revision, [], NO_MANIFEST).value;
    assert Syncs(lib, prefix, c, revision, [], NO_MANIFEST);
    NamedWorldIsMarked(c, prefix);
    MarkedPrefixRefused(lib, prefix, c, revision, [], NO_MANIFEST, draft);
    if Saves(lib, write, staged, d, commandId, c, revision, draft) && AggregateTells(lib, draft.manifest) {
      StagedDraftResumesExactly(lib, write, staged, d, commandId, prefix, c, revision, [], NO_MANIFEST, draft);
    }
  }

  lemma NoFiles()
    ensures Classified([]) == Layering([], [], [])
  {
    assert Sort(StringLess, []) == [];
    assert Sort(FileLess, []) == [];
  }

  // ---------------------------------------------------------------- a name that is not text

  /** One byte that begins no character. */
  const STRAY: string := [0xFF as char]

  lemma StrayPath()
    ensures LayerOf(STRAY) == Content && ValidWorkspacePath(STRAY) && NUL !in STRAY && !IsText(STRAY)
  {
    hide Split;
    SinglePart(STRAY, '/');
    assert Raw(STRAY) == [0xFF];
    assert CharLength([0xFF]) == 0;
  }

  /** The draft of that one file. */
  lemma StrayBuilds(lib: Library, prefix: string, c: Command, revision: nat, data: Bytes) returns (draft: Draft, b: Blob)
    requires Digests(lib) && c.runtimeContent.None?
    requires |data| <= MAX_WORKSPACE_BYTES && |lib.encode([File(STRAY, data)])| <= MAX_BLOB_BYTES
    ensures BuildManifest(lib, prefix, c, revision, [File(STRAY, data)], NO_MANIFEST) == Ok(draft)
    ensures DescriptorsOf(draft.archives) == [b] && b.paths == [STRAY] && b.logicalSize == |data|
    ensures 0 < b.compressedSize <= MAX_BLOB_BYTES
    ensures Classified([File(STRAY, data)]).world == [] && OnDisk([File(STRAY, data)])
  {
    hide Classified, ContentKey, ManifestOf, BuildArchive, ValidWorkspacePath, LayerOf, OnDisk, ValidSha256;
    var f := File(STRAY, data);
    StrayPath();
    OneFileLayers(f);
    OneFileOnDisk(f);
    OneFileArchive(lib, f);
    draft := BuildManifest(lib, prefix, c, revision, [f], NO_MANIFEST).value;
    var a := BuildArchive(lib, [f]).value.descriptor;
    b := a.(key := ContentKey(prefix, a.sha256));
    assert |draft.archives| == 1 && draft.archives[0].descriptor == b;
  }

  lemma StrayFits(c: Command, b: Blob)
    requires b.paths == [STRAY] && 0 <= b.logicalSize <= MAX_WORKSPACE_BYTES && b.logicalSize <= WorkspaceLimit(c)
    requires 0 < b.compressedSize <= MAX_BLOB_BYTES
    ensures FitsLimits(c, [b])
  {
    assert [b][..0] == [];
    assert LogicalSum([]) == 0 && CompressedSum([]) == 0 && AllPaths([]) == {};
    assert LogicalSum([b]) == b.logicalSize && CompressedSum([b]) == b.compressedSize;
    assert AllPaths([b]) == {STRAY};
  }

  /**
   A workspace with one file whose name is not text. The sync builds a manifest that is acceptable as it stands and
   publishes it. What a restore reads is refused, and so is the staged draft after a restart.
   */
  lemma StrayNameIsLost(
    lib: Library, write: Manifest -> Bytes, staged: Files, d: SyncDescriptor, commandId: string,
    prefix: string, c: Command, revision: nat, data: Bytes) returns (draft: Draft)
    requires Digests(lib) && WorkspacePrefix(c) == Ok(prefix) && c.assignmentId != "" && c.runtimeContent.None?
    requires !Contains(prefix + "/", WORLD_MARK)
    requires |data| <= MAX_WORKSPACE_BYTES && |data| <= WorkspaceLimit(c) && |lib.encode([File(STRAY, data)])| <= MAX_BLOB_BYTES
    ensures BuildManifest(lib, prefix, c, revision, [File(STRAY, data)], NO_MANIFEST) == Ok(draft)
    ensures Accepted(lib, draft.manifest, c.(revision := revision))
    ensures AggregateTells(lib, draft.manifest) ==>
      && !Accepted(lib, Scrubbed(draft.manifest), c.(revision := revision))
      && (Saves(lib, write, staged, d, commandId, c, revision, draft) ==> !Loadable(lib, write, staged, d, commandId, c, revision))
  {
    hide Digests, WorkspacePrefix, Contains, Loadable, Saves, ManifestOf, BuildManifest, Sound, AggregateTells, Accepted, Scrubbed,
         DescriptorsOf, FitsLimits, Collides, OnDisk, IsText;
    var files := [File(STRAY, data)];
    var b;
    draft, b := StrayBuilds(lib, prefix, c, revision, data);
    NothingSound(prefix);
    assert Syncs(lib, prefix, c, revision, files, NO_MANIFEST);
    NoShardsNoCollision(lib, prefix, revision, files);
    StrayFits(c, b);
    DraftAcceptedExactly(lib, prefix, c, revision, files, NO_MANIFEST, draft);
    StrayPath();
    assert files[0] in files && !TextInputs(c, NO_MANIFEST, files);
    if AggregateTells(lib, draft.manifest) {
      PublishedAcceptedExactly(lib, prefix, c, revision, files, NO_MANIFEST, draft);
      if Saves(lib, write, staged, d, commandId, c, revision, draft) {
        StagedDraftResumesExactly(lib, write, staged, d, commandId, prefix, c, revision, files, NO_MANIFEST, draft);
      }
    }
  }
}
