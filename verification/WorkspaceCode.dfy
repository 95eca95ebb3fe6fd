/** The loops that build a draft and the loops that restore one, against the functions that say what they compute. */
module WorkspaceCode {
  import opened Bytes
  import opened Options
  import opened Layers
  import opened Manifests
  import opened Keys
  import opened Drafts
  import opened Restores

  // ---------------------------------------------------------------- building

  method PackArchive(lib: Library, files: seq<File>) returns (r: Result<Archive>)
    ensures r == BuildArchive(lib, files)
  {
    hide ValidWorkspacePath;
    var logicalSize: nat, paths: seq<Path> := 0, [];
    for k := 0 to |files|
      invariant forall i :: 0 <= i < k ==> Packable(files[i])
      invariant logicalSize == Size(files[..k]) && paths == PathsOf(files[..k])
    {
      if !ValidWorkspacePath(files[k].path) || |files[k].data| > 68719476736 {
        return Failed;
      }
      assert files[..k + 1][..k] == files[..k];
      logicalSize := logicalSize + |files[k].data|;
      paths := paths + [files[k].path];
    }
    assert files[..|files|] == files;
    var data := lib.encode(files);
    if |data| > 4294967296 {
      return Failed;
    }
    return Ok(Archive(Some(data), Blob("", lib.sha256(data), |data|, logicalSize, paths)));
  }

  /** The published descriptor of the same archive, if there is one. */
  method FindPublished(previous: seq<Blob>, b: Blob) returns (r: Blob)
    ensures r == ReuseAny(previous, b)
  {
    hide Joined;
    r := b;
    for k := 0 to |previous|
      invariant r == b && ReuseAny(previous, b) == ReuseAny(previous[k..], b)
    {
      assert previous[k..][0] == previous[k] && previous[k..][1..] == previous[k + 1..];
      if previous[k].sha256 == b.sha256 && previous[k].compressedSize == b.compressedSize &&
         previous[k].logicalSize == b.logicalSize && Joined(previous[k].paths) == Joined(b.paths) {
        r := previous[k];
        break;
      }
    }
  }

  method WriteContent(
    lib: Library, prefix: string, c: Command, files: seq<File>, previous: Manifest) returns (r: Result<Archive>)
    ensures r == BuildContent(lib, prefix, c, files, previous)
  {
    hide BuildArchive, Contains, HasSuffix, SameArchive;
    if c.runtimeContent.Some? {
      return Ok(Archive(None, c.runtimeContent.value));
    }
    if previous.content.Some? && Contains(previous.content.value.key, "/compiler-content/") &&
       HasSuffix(previous.content.value.key, ".tar.zst") {
      return Ok(Archive(None, previous.content.value));
    }
    var a := PackArchive(lib, files);
    if a.Failed? {
      return Failed;
    }
    var b := a.value.descriptor.(key := prefix + "/content/" + a.value.descriptor.sha256 + ".tar.zst");
    if previous.content.Some? && SameArchive(previous.content.value, b) {
      b := previous.content.value;
    }
    return Ok(a.value.(descriptor := b));
  }

  method WriteConfig(
    lib: Library, prefix: string, revision: nat, files: seq<File>,
    previous: Manifest) returns (r: Result<seq<Archive>>)
    ensures r == BuildConfig(lib, prefix, revision, files, previous)
  {
    hide BuildArchive, ConfigKey, SameArchive;
    if |files| == 0 {
      return Ok([]);
    }
    var a := PackArchive(lib, files);
    if a.Failed? {
      return Failed;
    }
    var b := a.value.descriptor.(key := ConfigKey(prefix, revision));
    if previous.config.Some? && SameArchive(previous.config.value, b) {
      b := previous.config.value;
    }
    return Ok([a.value.(descriptor := b)]);
  }

  lemma {:induction false} FailedShard(
    lib: Library, prefix: string, revision: nat, shards: seq<seq<File>>, previous: Manifest, k: nat)
    requires k < |shards|
    ensures BuildWorld(lib, prefix, revision, shards[..k + 1], previous).Failed? ==>
      BuildWorld(lib, prefix, revision, shards, previous).Failed?
  {
    hide BuildShard;
    if k + 1 < |shards| {
      FailedShard(lib, prefix, revision, shards[..|shards| - 1], previous, k);
      assert shards[..|shards| - 1][..k + 1] == shards[..k + 1];
    } else {
      assert shards[..k + 1] == shards;
    }
  }

  method WriteWorld(lib: Library, prefix: string, revision: nat, shards: seq<seq<File>>, previous: Manifest)
    returns (r: Result<seq<Archive>>)
    ensures r == BuildWorld(lib, prefix, revision, shards, previous)
  {
    hide BuildArchive, WorldKey, ReuseAny;
    var archives: seq<Archive> := [];
    for k := 0 to |shards|
      invariant BuildWorld(lib, prefix, revision, shards[..k], previous) == Ok(archives)
    {
      assert shards[..k + 1][..k] == shards[..k];
      var a := PackArchive(lib, shards[k]);
      if a.Failed? {
        FailedShard(lib, prefix, revision, shards, previous, k);
        return Failed;
      }
      var b := FindPublished(previous.world, a.value.descriptor.(key := WorldKey(prefix, revision, k)));
      archives := archives + [a.value.(descriptor := b)];
    }
    assert shards[..|shards|] == shards;
    return Ok(archives);
  }

  method WriteManifest(lib: Library, prefix: string, c: Command, revision: nat, files: seq<File>, previous: Manifest)
    returns (r: Result<Draft>)
    ensures r == BuildManifest(lib, prefix, c, revision, files, previous)
  {
    hide Classified, BuildContent, BuildConfig, BuildWorld, Contains, Descriptors;
    var layers := Classify(files);
    var content := WriteContent(lib, prefix, c, layers.content, previous);
    if content.Failed? {
      return Failed;
    }
    var config := WriteConfig(lib, prefix, revision, layers.config, previous);
    if config.Failed? {
      return Failed;
    }
    var world := WriteWorld(lib, prefix, revision, layers.world, previous);
    if world.Failed? {
      return Failed;
    }
    var archives := [content.value] + config.value + world.value;
    var logicalSize, listed: seq<Blob> := 0, [];
    for k := 0 to |archives|
      invariant logicalSize == LogicalSum(DescriptorsOf(archives[..k])) && listed == Marked(archives[..k])
    {
      assert archives[..k + 1][..k] == archives[..k];
      assert DescriptorsOf(archives[..k + 1])[..k] == DescriptorsOf(archives[..k]);
      logicalSize := logicalSize + archives[k].descriptor.logicalSize;
      if Contains(archives[k].descriptor.key, "/world/") {
        listed := listed + [archives[k].descriptor];
      }
    }
    assert archives[..|archives|] == archives;
    var m := Manifest(2, c.serviceId, c.assignmentId, revision, logicalSize, "", "", Some(content.value.descriptor),
                      if config.value == [] then None else Some(config.value[0].descriptor), listed);
    var aggregate := lib.aggregate(Descriptors(m));
    m := m.(aggregateSha256 := aggregate, manifestHash := aggregate);
    return Ok(Draft(m, archives));
  }

  // ---------------------------------------------------------------- restoring

  lemma {:induction false} FailedEntry(x: Extraction, files: seq<File>, limit: int, overlay: bool, k: nat)
    requires k < |files|
    ensures ExtractAll(x, files[..k + 1], limit, overlay).Failed? ==> ExtractAll(x, files, limit, overlay).Failed?
  {
    hide ExtractOne;
    if k + 1 < |files| {
      FailedEntry(x, files[..|files| - 1], limit, overlay, k);
      assert files[..|files| - 1][..k + 1] == files[..k + 1];
    } else {
      assert files[..k + 1] == files;
    }
  }

  /** One member of an archive; `seen` forgets a file for the moment it is taken off the disk. */
  method ExtractMember(x: Extraction, f: File, limit: int, overlay: bool) returns (r: Result<Extraction>)
    ensures r == ExtractOne(x, f, limit, overlay)
  {
    hide ValidWorkspacePath, IsConfigPath, Creatable;
    var disk, seen, entries := x.disk, x.seen, x.entries + 1;
    if entries > 100000 || !ValidWorkspacePath(f.path) || |f.data| > limit || x.total + |f.data| > limit {
      return Failed;
    }
    if f.path !in x.expected {
      return Failed;
    }
    var duplicate := f.path in seen;
    var over := duplicate && overlay && IsConfigPath(f.path);
    if duplicate && !over {
      return Failed;
    }
    if over {
      disk, seen := disk - {f.path}, seen - {f.path};
    }
    if !Creatable(disk, f.path) {
      return Failed;
    }
    assert seen + {f.path} == x.seen + {f.path};
    return Ok(Extraction(disk[f.path := f.data], seen + {f.path}, x.expected - {f.path}, x.total + |f.data|, entries));
  }

  /** The loop over the members of one archive. */
  method ExtractMembers(
    lib: Library, data: Bytes, b: Blob, p: Progress, limit: int, overlay: bool) returns (r: Result<Progress>)
    ensures r == ExtractArchive(lib, data, b, p, limit, overlay)
  {
    hide ValidPaths, ExtractOne;
    if !ValidPaths(b.paths) || lib.decode(data).None? {
      return Failed;
    }
    var files := lib.decode(data).value;
    var x := Extraction(p.disk, p.seen, PathSet(b.paths), 0, 0);
    ghost var start := x;
    for k := 0 to |files|
      invariant ExtractAll(start, files[..k], limit, overlay) == Ok(x)
    {
      assert files[..k + 1][..k] == files[..k];
      FailedEntry(start, files, limit, overlay, k);
      var next := ExtractMember(x, files[k], limit, overlay);
      if next.Failed? {
        return Failed;
      }
      x := next.value;
    }
    assert files[..|files|] == files;
    if x.expected != {} || x.total != b.logicalSize {
      return Failed;
    }
    return Ok(Progress(x.disk, x.seen, p.extracted + x.total));
  }

  lemma {:induction false} FailedBlob(lib: Library, store: Store, m: Manifest, c: Command, ds: seq<Blob>, k: nat)
    requires k < |ds|
    ensures RestoreAll(lib, store, m, c, ds[..k + 1]).Failed? ==> RestoreAll(lib, store, m, c, ds).Failed?
  {
    hide RestoreOne;
    if k + 1 < |ds| {
      FailedBlob(lib, store, m, c, ds[..|ds| - 1], k);
      assert ds[..|ds| - 1][..k + 1] == ds[..k + 1];
    } else {
      assert ds[..k + 1] == ds;
    }
  }

  const RESTORE_GRANT_BATCH: nat := 8

  method DownloadAndExtract(
    lib: Library, store: Store, m: Manifest, c: Command, p: Progress, b: Blob) returns (r: Result<Progress>)
    ensures r == RestoreOne(lib, store, m, c, p, b)
  {
    hide ExtractArchive;
    if b.key !in store || |store[b.key]| != b.compressedSize || lib.sha256(store[b.key]) != b.sha256 {
      return Failed;
    }
    var overlay := m.config.Some? && b.key == m.config.value.key;
    var next := ExtractMembers(lib, store[b.key], b, p, WorkspaceLimit(c), overlay);
    if next.Ok? && next.value.extracted > WorkspaceLimit(c) {
      return Failed;
    }
    return next;
  }

  /** Descriptors are fetched in batches; the disk does not depend on how they are batched. */
  method RestoreWorkspace(lib: Library, store: Store, m: Manifest, c: Command) returns (r: Result<Disk>)
    ensures r == Restore(lib, store, m, c)
  {
    hide RestoreOne, Descriptors;
    var ds := Descriptors(m);
    var p := Progress(map[], {}, 0);
    var start := 0;
    while start < |ds|
      invariant start <= |ds| && RestoreAll(lib, store, m, c, ds[..start]) == Ok(p)
    {
      var end := if start + RESTORE_GRANT_BATCH > |ds| then |ds| else start + RESTORE_GRANT_BATCH;
      for k := start to end
        invariant RestoreAll(lib, store, m, c, ds[..k]) == Ok(p)
      {
        assert ds[..k + 1][..k] == ds[..k];
        FailedBlob(lib, store, m, c, ds, k);
        var next := DownloadAndExtract(lib, store, m, c, p, ds[k]);
        if next.Failed? {
          return Failed;
        }
        p := next.value;
      }
      start := end;
    }
    assert ds[..|ds|] == ds;
    if p.extracted != m.logicalSize {
      return Failed;
    }
    return Ok(p.disk);
  }
}
