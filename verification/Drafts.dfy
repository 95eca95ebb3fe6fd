/**
 How a stopped workspace becomes a draft: a manifest with one archive for content, one for config and one
 a world shard, where an archive that has not changed keeps the key it was published under.
 */
module Drafts {
  import opened Bytes
  import opened Options
  import opened Layers
  import opened Keys
  import opened Text
  import opened Manifests

  /** An archive without staged bytes is one the compiler published. */
  datatype Archive = Archive(staged: Option<Bytes>, descriptor: Blob)

  datatype Draft = Draft(manifest: Manifest, archives: seq<Archive>)

  const NO_MANIFEST := Manifest(0, "", "", 0, 0, "", "", None, None, [])

  // ---------------------------------------------------------------- one archive

  function PathsOf(files: seq<File>): seq<Path>
  {
    seq(|files|, i requires 0 <= i < |files| => files[i].path)
  }

  predicate Packable(f: File)
  {
    ValidWorkspacePath(f.path) && |f.data| <= MAX_WORKSPACE_BYTES
  }

  function BuildArchive(lib: Library, files: seq<File>): Result<Archive>
  {
    var data := lib.encode(files);
    if (exists i :: 0 <= i < |files| && !Packable(files[i])) || |data| > MAX_BLOB_BYTES then Failed
    else Ok(Archive(Some(data), Blob("", lib.sha256(data), |data|, Size(files), PathsOf(files))))
  }

  const NUL := '\0'

  /** `strings.Join(paths, "\x00")`. */
  function Joined(paths: seq<Path>): string
  {
    if |paths| == 0 then "" else if |paths| == 1 then paths[0] else paths[0] + [NUL] + Joined(paths[1..])
  }

  predicate SameArchive(a: Blob, b: Blob)
  {
    && a.sha256 == b.sha256 && a.compressedSize == b.compressedSize && a.logicalSize == b.logicalSize
    && Joined(a.paths) == Joined(b.paths)
  }

  /** A descriptor, or the one that was published for the same archive. */
  function Reuse(previous: Option<Blob>, b: Blob): Blob
  {
    if previous.Some? && SameArchive(previous.value, b) then previous.value else b
  }

  function ReuseAny(previous: seq<Blob>, b: Blob): Blob
  {
    if previous == [] then b else if SameArchive(previous[0], b) then previous[0] else ReuseAny(previous[1..], b)
  }

  // ---------------------------------------------------------------- the draft

  function BuildContent(lib: Library, prefix: string, c: Command, files: seq<File>, previous: Manifest): Result<Archive>
  {
    if c.runtimeContent.Some? then Ok(Archive(None, c.runtimeContent.value))
    else if previous.content.Some? && IsCompilerContent(previous.content.value) then Ok(Archive(None, previous.content.value))
    else
      var a :- BuildArchive(lib, files);
      var keyed := a.descriptor.(key := ContentKey(prefix, a.descriptor.sha256));
      Ok(a.(descriptor := Reuse(previous.content, keyed)))
  }

  /** At most one archive. */
  function BuildConfig(
    lib: Library, prefix: string, revision: nat, files: seq<File>, previous: Manifest): Result<seq<Archive>>
  {
    if files == [] then Ok([])
    else
      var a :- BuildArchive(lib, files);
      Ok([a.(descriptor := Reuse(previous.config, a.descriptor.(key := ConfigKey(prefix, revision))))])
  }

  function BuildShard(
    lib: Library, prefix: string, revision: nat, index: nat, files: seq<File>, previous: Manifest): Result<Archive>
  {
    var a :- BuildArchive(lib, files);
    Ok(a.(descriptor := ReuseAny(previous.world, a.descriptor.(key := WorldKey(prefix, revision, index)))))
  }

  function BuildWorld(
    lib: Library, prefix: string, revision: nat, shards: seq<seq<File>>, previous: Manifest): Result<seq<Archive>>
  {
    if shards == [] then Ok([])
    else
      var n := |shards| - 1;
      var most :- BuildWorld(lib, prefix, revision, shards[..n], previous);
      var a :- BuildShard(lib, prefix, revision, n, shards[n], previous);
      Ok(most + [a])
  }

  /** The descriptors whose key has the world mark. */
  function Marked(archives: seq<Archive>): seq<Blob>
  {
    if archives == [] then []
    else
      var n := |archives| - 1;
      Marked(archives[..n]) + (if Contains(archives[n].descriptor.key, WORLD_MARK) then [archives[n].descriptor] else [])
  }

  function DescriptorsOf(archives: seq<Archive>): seq<Blob>
  {
    seq(|archives|, i requires 0 <= i < |archives| => archives[i].descriptor)
  }

  function ManifestOf(
    lib: Library, c: Command, revision: nat, content: Archive, config: seq<Archive>, world: seq<Archive>): Manifest
  {
    var archives := [content] + config + world;
    var bare := Manifest(2, c.serviceId, c.assignmentId, revision, LogicalSum(DescriptorsOf(archives)), "", "",
                         Some(content.descriptor), if config == [] then None else Some(config[0].descriptor), Marked(archives));
    var aggregate := lib.aggregate(Descriptors(bare));
    bare.(aggregateSha256 := aggregate, manifestHash := aggregate)
  }

  function BuildManifest(
    lib: Library, prefix: string, c: Command, revision: nat, files: seq<File>, previous: Manifest): Result<Draft>
  {
    var layers := Classified(files);
    var content :- BuildContent(lib, prefix, c, layers.content, previous);
    var config :- BuildConfig(lib, prefix, revision, layers.config, previous);
    var world :- BuildWorld(lib, prefix, revision, layers.world, previous);
    Ok(Draft(ManifestOf(lib, c, revision, content, config, world), [content] + config + world))
  }

  // ---------------------------------------------------------------- assumptions and invariants

  /** Digests look like digests, and an archive is never empty. */
  ghost predicate Digests(lib: Library)
  {
    && (forall data :: ValidSha256(lib.sha256(data)))
    && (forall ds :: ValidSha256(lib.aggregate(ds)))
    && (forall files :: |lib.encode(files)| > 0)
  }

  /** What `collectFiles` yields: distinct valid paths, and a file system has no NUL in a name. */
  ghost predicate OnDisk(files: seq<File>)
  {
    && DistinctPaths(files)
    && forall f :: f in files ==> ValidWorkspacePath(f.path) && NUL !in f.path
  }

  ghost predicate Plain(paths: seq<Path>)
  {
    forall i :: 0 <= i < |paths| ==> paths[i] != "" && NUL !in paths[i]
  }

  /** What holds of every descriptor this program wrote, whatever its size. */
  ghost predicate Written(b: Blob)
  {
    && ValidSha256(b.sha256)
    && 0 < b.compressedSize <= MAX_BLOB_BYTES && 0 <= b.logicalSize
    && ValidPaths(b.paths) && Plain(b.paths)
  }

  ghost predicate SoundContent(prefix: string, b: Blob)
  {
    if b.key == ContentKey(prefix, b.sha256) then Written(b) && AllIn(b.paths, IsContentPath)
    else RuntimeContent(prefix, b) && ValidPaths(b.paths)
  }

  ghost predicate SoundConfig(prefix: string, b: Blob)
  {
    ConfigLayer(prefix, b) && Written(b)
  }

  ghost predicate SoundShard(prefix: string, b: Blob)
  {
    WorldLayer(prefix, b) && Written(b)
  }

  /** The invariant of the manifest a service holds: every layer of the right form, under a key of its own. */
  ghost predicate Sound(prefix: string, m: Manifest)
  {
    && (m.content.Some? ==> SoundContent(prefix, m.content.value))
    && (m.config.Some? ==> SoundConfig(prefix, m.config.value))
    && (forall i :: 0 <= i < |m.world| ==> SoundShard(prefix, m.world[i]))
    && KeysDiffer(m.world)
  }

  // ---------------------------------------------------------------- reuse changes the key and nothing else

  lemma {:induction false} JoinedSplits(paths: seq<Path>)
    requires Plain(paths) && paths != []
    ensures Split(Joined(paths), NUL) == paths
  {
    hide Split;
    SinglePart(paths[0], NUL);
    if |paths| > 1 {
      JoinedSplits(paths[1..]);
      SplitJoined(paths[0], NUL, Joined(paths[1..]));
      assert paths == [paths[0]] + paths[1..];
    }
  }

  /** Joining with NUL is injective on the paths a file system can hold. */
  lemma JoinedInjective(a: seq<Path>, b: seq<Path>)
    requires Plain(a) && Plain(b) && Joined(a) == Joined(b)
    ensures a == b
  {
    if a != [] && b != [] {
      JoinedSplits(a);
      JoinedSplits(b);
    } else if a != [] {
      JoinedNotEmpty(a);
    } else if b != [] {
      JoinedNotEmpty(b);
    }
  }

  lemma JoinedNotEmpty(paths: seq<Path>)
    requires Plain(paths) && paths != []
    ensures Joined(paths) != ""
  {
    assert paths[0] != "";
  }

  /** Without that, two different lists of paths join to the same text. */
  lemma NulIsAmbiguous(p: Path, q: Path)
    ensures Joined([p, q]) == Joined([p + [NUL] + q]) && [p, q] != [p + [NUL] + q]
  {
    assert [p, q][1..] == [q];
  }

  lemma SameArchiveIsSame(a: Blob, b: Blob)
    requires SameArchive(a, b) && Plain(a.paths) && Plain(b.paths)
    ensures a == b.(key := a.key)
  {
    JoinedInjective(a.paths, b.paths);
  }

  lemma {:induction false} ReusedFrom(previous: seq<Blob>, b: Blob) returns (i: nat)
    ensures ReuseAny(previous, b) == b || (i < |previous| && ReuseAny(previous, b) == previous[i] && SameArchive(previous[i], b))
  {
    if previous == [] || SameArchive(previous[0], b) {
      i := 0;
    } else {
      var j := ReusedFrom(previous[1..], b);
      i := j + 1;
    }
  }

  lemma ArchiveWritten(lib: Library, files: seq<File>)
    requires Digests(lib) && BuildArchive(lib, files).Ok?
    requires DistinctPaths(files) && forall f :: f in files ==> ValidWorkspacePath(f.path) && NUL !in f.path
    ensures var b := BuildArchive(lib, files).value.descriptor;
      && Written(b) && b.paths == PathsOf(files) && b.sha256 == lib.sha256(lib.encode(files))
      && b.compressedSize == |lib.encode(files)| && b.logicalSize == Size(files)
  {
    hide ValidWorkspacePath, ValidSha256;
    var paths := PathsOf(files);
    assert Plain(paths) by {
      forall i | 0 <= i < |paths| ensures paths[i] != "" && NUL !in paths[i] {
        assert files[i] in files;
        ValidNotEmpty(paths[i]);
      }
    }
    assert ValidPaths(paths) by {
      forall i | 0 <= i < |paths| ensures ValidWorkspacePath(paths[i]) {
        assert files[i] in files;
      }
    }
  }

  lemma ValidNotEmpty(path: Path)
    requires ValidWorkspacePath(path)
    ensures path != ""
  {
  }
}
