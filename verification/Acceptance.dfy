/**
 Which drafts a later restore accepts: exactly those within the limits and without the world mark in the
 key of their content. The invariant behind it is kept by every sync.
 */
module Acceptance {
  import opened Bytes
  import opened Options
  import opened Layers
  import opened Keys
  import opened Text
  import opened Manifests
  import opened Drafts

  // ---------------------------------------------------------------- files of a layer

  lemma {:induction false} OnceOnly(files: seq<File>, f: File)
    requires DistinctPaths(files)
    ensures multiset(files)[f] <= 1
  {
    if files != [] {
      var most, last := files[..|files| - 1], files[|files| - 1];
      OnceOnly(most, f);
      assert files == most + [last];
      assert last !in most by {
        assert forall i :: 0 <= i < |most| ==> files[i] == most[i] && most[i].path != last.path;
      }
    }
  }

  lemma Twice(s: seq<File>, i: nat, j: nat)
    requires i < j < |s| && s[i] == s[j]
    ensures multiset(s)[s[i]] >= 2
  {
    var a, b := s[..j], s[j..];
    assert s == a + b && a[i] == s[i] && b[0] == s[j];
    assert s[i] in multiset(a) && s[i] in multiset(b);
  }

  lemma SubsetOnDisk(s: seq<File>, files: seq<File>)
    requires OnDisk(files) && multiset(s) <= multiset(files)
    ensures OnDisk(s)
  {
    hide ValidWorkspacePath;
    forall f | f in s ensures f in files {
      assert f in multiset(s);
    }
    forall i, j | 0 <= i < |s| && 0 <= j < |s| && i != j ensures s[i].path != s[j].path {
      if s[i].path == s[j].path {
        assert s[i] in files && s[j] in files;
        var a :| 0 <= a < |files| && files[a] == s[i];
        var b :| 0 <= b < |files| && files[b] == s[j];
        assert a == b;
        OnceOnly(files, s[i]);
        assert multiset(s)[s[i]] <= multiset(files)[s[i]] <= 1;
        Twice(s, if i < j then i else j, if i < j then j else i);
      }
    }
  }

  lemma LayersOnDisk(files: seq<File>)
    requires OnDisk(files)
    ensures var l := Classified(files); OnDisk(l.content) && OnDisk(l.config) && OnDisk(Flat(l.world))
  {
    hide Classified, OnDisk, Flat;
    var l := Classified(files);
    ClassifiedPartitions(files);
    SubsetOnDisk(l.content, files);
    SubsetOnDisk(l.config, files);
    SubsetOnDisk(Flat(l.world), files);
  }

  lemma {:induction false} ShardOnDisk(shards: seq<seq<File>>, i: nat)
    requires i < |shards| && OnDisk(Flat(shards))
    ensures OnDisk(shards[i])
  {
    hide OnDisk;
    var most, last := shards[..|shards| - 1], shards[|shards| - 1];
    assert multiset(Flat(shards)) == multiset(Flat(most)) + multiset(last);
    SubsetOnDisk(Flat(most), Flat(shards));
    SubsetOnDisk(last, Flat(shards));
    if i < |most| {
      ShardOnDisk(most, i);
    }
  }

  lemma {:induction false} ShardsApart(shards: seq<seq<File>>, i: nat, j: nat, f: File, g: File)
    requires i < j < |shards| && OnDisk(Flat(shards)) && f in shards[i] && g in shards[j]
    ensures f.path != g.path
  {
    var most, last := shards[..|shards| - 1], shards[|shards| - 1];
    if j < |most| {
      assert OnDisk(Flat(most)) by {
        hide OnDisk;
        assert multiset(Flat(shards)) == multiset(Flat(most)) + multiset(last);
        SubsetOnDisk(Flat(most), Flat(shards));
      }
      ShardsApart(most, i, j, f, g);
    } else {
      InFlat(most, i, f);
      var a :| 0 <= a < |Flat(most)| && Flat(most)[a] == f;
      var b :| 0 <= b < |last| && last[b] == g;
      assert Flat(shards)[a] == f && Flat(shards)[|Flat(most)| + b] == g;
    }
  }

  /** Every file of a layer has a path of that layer. */
  lemma LayerPaths(files: seq<File>, i: nat)
    ensures var l := Classified(files);
      && AllIn(PathsOf(l.content), IsContentPath) && AllIn(PathsOf(l.config), IsConfigPath)
      && (i < |l.world| ==> AllIn(PathsOf(l.world[i]), IsWorldPath))
  {
    hide Classified, IsContentPath, IsConfigPath, IsWorldPath, Flat;
    var l := Classified(files);
    forall k | 0 <= k < |l.content| ensures IsContentPath(PathsOf(l.content)[k]) {
      ClassifiedByPath(files, l.content[k]);
    }
    forall k | 0 <= k < |l.config| ensures IsConfigPath(PathsOf(l.config)[k]) {
      ClassifiedByPath(files, l.config[k]);
    }
    if i < |l.world| {
      forall k | 0 <= k < |l.world[i]| ensures IsWorldPath(PathsOf(l.world[i])[k]) {
        InFlat(l.world, i, l.world[i][k]);
        ClassifiedByPath(files, l.world[i][k]);
      }
    }
  }

  // ---------------------------------------------------------------- keys of different layers

  lemma CompilerMarkFound(prefix: string, key: string)
    requires prefix + COMPILER_MARK <= key
    ensures Contains(key, COMPILER_MARK)
    ensures key[|prefix| + 1] == 'c' && key[|prefix| + 4] == 'p'
  {
    var all := prefix + COMPILER_MARK;
    assert key == all + key[|all|..];
    assert key[|prefix|..|prefix| + |COMPILER_MARK|] == COMPILER_MARK;
    assert OccursAt(key, COMPILER_MARK, |prefix|);
    assert key[|prefix| + 1] == COMPILER_MARK[1] && key[|prefix| + 4] == COMPILER_MARK[4];
  }

  lemma ContentKeyStarts(prefix: string, sha: string)
    ensures |ContentKey(prefix, sha)| > |prefix| + 9 && prefix + "/" <= ContentKey(prefix, sha)
    ensures ContentKey(prefix, sha)[|prefix| + 1] == 'c' && ContentKey(prefix, sha)[|prefix| + 4] == 't'
    ensures HasSuffix(ContentKey(prefix, sha), ARCHIVE_SUFFIX)
  {
    var key := ContentKey(prefix, sha);
    assert key == prefix + "/content/" + (sha + ARCHIVE_SUFFIX);
    assert key == (prefix + "/content/" + sha) + ARCHIVE_SUFFIX;
    assert key[..|prefix| + 1] == prefix + "/";
    assert key[|prefix| + 1] == "/content/"[1] && key[|prefix| + 4] == "/content/"[4];
  }

  lemma RevisionRootStarts(prefix: string, key: string)
    requires RevisionRoot(prefix) <= key
    ensures |key| > |prefix| + 1 && key[|prefix| + 1] == 'r'
    ensures key == prefix + "/" + ("revisions" + "/" + key[|RevisionRoot(prefix)|..])
  {
    var root := RevisionRoot(prefix);
    assert key == root + key[|root|..];
    assert root[|prefix| + 1] == "/revisions/"[1];
    assert root == prefix + "/" + ("revisions" + "/");
  }

  /** The key of a content layer comes from neither of the other layers, and follows the prefix. */
  lemma ContentKeyApart(prefix: string, b: Blob)
    requires SoundContent(prefix, b)
    ensures |b.key| > |prefix| + 1 && b.key[|prefix| + 1] == 'c' && prefix + "/" <= b.key
    ensures RuntimeContent(prefix, b) ==> IsCompilerContent(b) && b.key != ContentKey(prefix, b.sha256)
  {
    hide Contains, HasSuffix, Written, ValidDescriptor, AllIn, ValidPaths;
    ContentKeyStarts(prefix, b.sha256);
    if RuntimeContent(prefix, b) {
      CompilerMarkFound(prefix, b.key);
    }
    if b.key != ContentKey(prefix, b.sha256) {
      assert b.key[..|prefix| + 1] == (prefix + COMPILER_MARK)[..|prefix| + 1] == prefix + "/";
    }
  }

  lemma WorldKeyMarked(prefix: string, key: string)
    requires RevisionRoot(prefix) <= key && |Below(prefix, key)| == 3 && Below(prefix, key)[1] == WORLD
    ensures Contains(key, WORLD_MARK)
  {
    hide Split, Contains;
    var rest := key[|RevisionRoot(prefix)|..];
    RevisionRootStarts(prefix, key);
    SplitJoined(prefix, '/', "revisions" + "/" + rest);
    SplitJoined("revisions", '/', rest);
    SinglePart("revisions", '/');
    var front := Split(prefix, '/');
    assert Split(key, '/') == front + ["revisions"] + Split(rest, '/');
    assert Split(key, '/')[|front| + 2] == WORLD;
    assert HasInnerPart(key, WORLD);
    ContainsByParts(key, WORLD);
    assert "/" + WORLD + "/" == WORLD_MARK;
  }

  lemma ConfigKeyMarked(prefix: string, key: string)
    requires RevisionLayerKey(prefix, key, CONFIG_NAME)
    ensures Contains(key, WORLD_MARK) <==> Contains(prefix + "/", WORLD_MARK)
  {
    hide Split, Contains;
    var rest := key[|RevisionRoot(prefix)|..];
    RevisionRootStarts(prefix, key);
    SplitJoined("revisions", '/', rest);
    SinglePart("revisions", '/');
    var parts := Split("revisions" + "/" + rest, '/');
    assert parts == ["revisions"] + Split(rest, '/');
    assert parts[1] != WORLD by {
      assert IsDigit(parts[1][0]);
    }
    assert parts == ["revisions", parts[1], CONFIG_NAME];
    MarkInPrefix(prefix, "revisions" + "/" + rest, WORLD);
    assert "/" + WORLD + "/" == WORLD_MARK;
  }

  /** If the content's key has no mark then neither has the prefix. */
  lemma PrefixUnmarked(prefix: string, key: string)
    requires prefix + "/" <= key && !Contains(key, WORLD_MARK)
    ensures !Contains(prefix + "/", WORLD_MARK)
  {
    assert prefix + "/" + key[|prefix| + 1..] == key;
    if Contains(prefix + "/", WORLD_MARK) {
      ContainsExtends(prefix + "/", WORLD_MARK, key[|prefix| + 1..]);
    }
  }

  // ---------------------------------------------------------------- each layer of a draft

  /** What a sync is given: a healthy library, files from a disk, its own prefix, a sound manifest of the past. */
  ghost predicate Syncs(lib: Library, prefix: string, c: Command, revision: nat, files: seq<File>, previous: Manifest)
  {
    && Digests(lib) && OnDisk(files)
    && WorkspacePrefix(c) == Ok(prefix) && c.assignmentId != ""
    && (c.runtimeContent.Some? ==> RuntimeContent(prefix, c.runtimeContent.value) && ValidPaths(c.runtimeContent.value.paths))
    && Sound(prefix, previous)
  }

  lemma RuntimeSound(prefix: string, b: Blob)
    requires RuntimeContent(prefix, b) && ValidPaths(b.paths)
    ensures SoundContent(prefix, b)
  {
    hide ValidPaths, ValidDescriptor, HasSuffix, Contains;
    CompilerMarkFound(prefix, b.key);
    ContentKeyStarts(prefix, b.sha256);
  }

  lemma ContentSound(lib: Library, prefix: string, c: Command, revision: nat, files: seq<File>, previous: Manifest)
    requires Syncs(lib, prefix, c, revision, files, previous)
    requires BuildContent(lib, prefix, c, Classified(files).content, previous).Ok?
    ensures SoundContent(prefix, BuildContent(lib, prefix, c, Classified(files).content, previous).value.descriptor)
  {
    hide Classified, OnDisk, RuntimeContent, ContentKey, IsCompilerContent, BuildArchive, Written, AllIn,
         WorkspacePrefix, Digests;
    var layer := Classified(files).content;
    if c.runtimeContent.Some? {
      RuntimeSound(prefix, c.runtimeContent.value);
    } else if previous.content.Some? && IsCompilerContent(previous.content.value) {
    } else {
      LayersOnDisk(files);
      LayerPaths(files, 0);
      OnDiskArchive(lib, layer);
      var b := BuildArchive(lib, layer).value.descriptor;
      var keyed := b.(key := ContentKey(prefix, b.sha256));
      WrittenByAnyKey(b, keyed.key);
      if previous.content.Some? && SameArchive(previous.content.value, keyed) {
        var was := previous.content.value;
        if was.key != ContentKey(prefix, was.sha256) {
          ContentKeyApart(prefix, was);
        }
        assert SoundContent(prefix, was);
      }
    }
  }

  lemma OnDiskArchive(lib: Library, files: seq<File>)
    requires Digests(lib) && OnDisk(files) && BuildArchive(lib, files).Ok?
    ensures var b := BuildArchive(lib, files).value.descriptor;
      && Written(b) && b.paths == PathsOf(files) && b.sha256 == lib.sha256(lib.encode(files))
      && b.compressedSize == |lib.encode(files)| && b.logicalSize == Size(files)
  {
    ArchiveWritten(lib, files);
  }

  lemma WrittenByAnyKey(b: Blob, key: string)
    ensures Written(b.(key := key)) <==> Written(b)
  {
  }

  lemma ConfigSound(lib: Library, prefix: string, c: Command, revision: nat, files: seq<File>, previous: Manifest)
    requires Syncs(lib, prefix, c, revision, files, previous)
    requires BuildConfig(lib, prefix, revision, Classified(files).config, previous).Ok?
    ensures var r := BuildConfig(lib, prefix, revision, Classified(files).config, previous).value;
      |r| <= 1 && (r != [] ==> SoundConfig(prefix, r[0].descriptor))
  {
    hide Classified, OnDisk, BuildArchive, Written, AllIn, WorkspacePrefix, Digests, ConfigKey, RevisionLayerKey,
         SoundContent;
    var layer := Classified(files).config;
    if layer != [] {
      LayersOnDisk(files);
      LayerPaths(files, 0);
      OnDiskArchive(lib, layer);
      var b := BuildArchive(lib, layer).value.descriptor;
      WrittenByAnyKey(b, ConfigKey(prefix, revision));
      PrintedKeysPass(prefix, revision, 0);
      if previous.config.Some? && SameArchive(previous.config.value, b) {
        assert SoundConfig(prefix, previous.config.value);
      }
    }
  }

  /** The descriptor of a shard before it is known whether its archive was published already. */
  function Candidate(lib: Library, prefix: string, revision: nat, index: nat, files: seq<File>): Blob
  {
    var data := lib.encode(files);
    Blob(WorldKey(prefix, revision, index), lib.sha256(data), |data|, Size(files), PathsOf(files))
  }

  /** The archive was published for an earlier manifest. */
  ghost predicate Known(previous: seq<Blob>, b: Blob)
  {
    exists p :: 0 <= p < |previous| && SameArchive(previous[p], b)
  }

  lemma {:induction false} KnownIsReused(previous: seq<Blob>, b: Blob)
    ensures Known(previous, b) ==> ReuseAny(previous, b) in previous && SameArchive(ReuseAny(previous, b), b)
    ensures !Known(previous, b) ==> ReuseAny(previous, b) == b && b !in previous
  {
    hide SameArchive;
    if previous != [] {
      KnownIsReused(previous[1..], b);
      assert previous == [previous[0]] + previous[1..];
      assert Known(previous[1..], b) ==> Known(previous, b) by {
        if p :| 0 <= p < |previous[1..]| && SameArchive(previous[1..][p], b) {
          assert SameArchive(previous[p + 1], b);
        }
      }
      SameAsItself(b);
      if Known(previous, b) && !SameArchive(previous[0], b) {
        var p :| 0 <= p < |previous| && SameArchive(previous[p], b);
        assert SameArchive(previous[1..][p - 1], b);
      }
      if !Known(previous, b) {
        assert !SameArchive(previous[0], b);
      }
    }
  }

  lemma SameAsItself(b: Blob)
    ensures SameArchive(b, b)
  {
  }

  /** A shard's archive: what it describes, and whose key it has. */
  ghost predicate ShardBuilt(
    lib: Library, prefix: string, revision: nat, index: nat, files: seq<File>, previous: Manifest, b: Blob)
  {
    && Written(b) && b.paths == PathsOf(files) && AllIn(b.paths, IsWorldPath)
    && b.sha256 == lib.sha256(lib.encode(files)) && b.compressedSize == |lib.encode(files)| && b.logicalSize == Size(files)
    && b == ReuseAny(previous.world, Candidate(lib, prefix, revision, index, files))
  }

  lemma ShardIsBuilt(
    lib: Library, prefix: string, c: Command, revision: nat, files: seq<File>, previous: Manifest, index: nat)
    requires Syncs(lib, prefix, c, revision, files, previous) && index < |Classified(files).world|
    requires BuildShard(lib, prefix, revision, index, Classified(files).world[index], previous).Ok?
    ensures ShardBuilt(lib, prefix, revision, index, Classified(files).world[index], previous,
                       BuildShard(lib, prefix, revision, index, Classified(files).world[index], previous).value.descriptor)
  {
    hide Classified, OnDisk, BuildArchive, AllIn, WorkspacePrefix, Digests, WorldKey, SoundContent, SoundConfig,
         WorldLayer, ReuseAny, PathsOf, Size, ValidPaths, ValidSha256;
    var shard := Classified(files).world[index];
    LayersOnDisk(files);
    LayerPaths(files, index);
    ShardOnDisk(Classified(files).world, index);
    OnDiskArchive(lib, shard);
    var b := BuildArchive(lib, shard).value.descriptor;
    b := b.(key := WorldKey(prefix, revision, index));
    WrittenByAnyKey(b, b.key);
    assert b == Candidate(lib, prefix, revision, index, shard);
    var i := ReusedFrom(previous.world, b);
    if ReuseAny(previous.world, b) != b {
      assert SoundShard(prefix, previous.world[i]);
      SameArchiveIsSame(previous.world[i], b);
    }
  }

  /** A shard has the key of its revision and number, or it is one of the earlier shards. */
  lemma ShardKey(
    lib: Library, prefix: string, revision: nat, index: nat, files: seq<File>, previous: Manifest, b: Blob)
    requires ShardBuilt(lib, prefix, revision, index, files, previous, b)
    ensures Known(previous.world, Candidate(lib, prefix, revision, index, files)) <==> b in previous.world
    ensures b !in previous.world ==> b.key == WorldKey(prefix, revision, index)
  {
    hide Written, AllIn, WorldKey, PathsOf, Size, ReuseAny, Known;
    KnownIsReused(previous.world, Candidate(lib, prefix, revision, index, files));
  }

  lemma {:induction false} WorldAt(
    lib: Library, prefix: string, revision: nat, shards: seq<seq<File>>, previous: Manifest, i: nat)
    requires BuildWorld(lib, prefix, revision, shards, previous).Ok?
    ensures |BuildWorld(lib, prefix, revision, shards, previous).value| == |shards|
    ensures i < |shards| ==>
      BuildShard(lib, prefix, revision, i, shards[i], previous) == Ok(BuildWorld(lib, prefix, revision, shards, previous).value[i])
  {
    hide BuildShard;
    if shards != [] {
      WorldAt(lib, prefix, revision, shards[..|shards| - 1], previous, i);
    }
  }

  lemma ShardSound(
    lib: Library, prefix: string, revision: nat, index: nat, files: seq<File>, previous: Manifest, b: Blob)
    requires Sound(prefix, previous) && index < SHARD_NUMBERS
    requires ShardBuilt(lib, prefix, revision, index, files, previous, b)
    ensures SoundShard(prefix, b)
  {
    hide Written, AllIn, WorldKey, WorldLayerKey, SoundContent, SoundConfig, PathsOf, Size, ReuseAny, Candidate, Known;
    PrintedKeysPass(prefix, revision, index);
    ShardKey(lib, prefix, revision, index, files, previous, b);
    if b in previous.world {
      var i :| 0 <= i < |previous.world| && previous.world[i] == b;
      assert SoundShard(prefix, previous.world[i]);
    }
  }

  /** Shard `i` is new, and the key it would get is the one under which shard `j` was published. */
  ghost predicate CollidesAt(
    lib: Library, prefix: string, revision: nat, shards: seq<seq<File>>, previous: Manifest, i: nat, j: nat)
  {
    && i < |shards| && j < |shards|
    && !Known(previous.world, Candidate(lib, prefix, revision, i, shards[i]))
    && Known(previous.world, Candidate(lib, prefix, revision, j, shards[j]))
    && ReuseAny(previous.world, Candidate(lib, prefix, revision, j, shards[j])).key == WorldKey(prefix, revision, i)
  }

  ghost predicate Collides(lib: Library, prefix: string, revision: nat, files: seq<File>, previous: Manifest)
  {
    exists i: nat, j: nat :: CollidesAt(lib, prefix, revision, Classified(files).world, previous, i, j)
  }

  /** Two shards share a key only if one is new and its key is the one the other was published under. */
  lemma ShardKeysDiffer(
    lib: Library, prefix: string, revision: nat, shards: seq<seq<File>>, previous: Manifest, i: nat, j: nat, a: Blob, b: Blob)
    requires Sound(prefix, previous) && OnDisk(Flat(shards)) && i < j < |shards| && shards[i] != []
    requires ShardBuilt(lib, prefix, revision, i, shards[i], previous, a)
    requires ShardBuilt(lib, prefix, revision, j, shards[j], previous, b)
    ensures a.key == b.key <==>
      || CollidesAt(lib, prefix, revision, shards, previous, i, j)
      || CollidesAt(lib, prefix, revision, shards, previous, j, i)
  {
    hide Written, AllIn, WorldKey, WorldLayer, SoundContent, SoundConfig, SoundShard, Size, OnDisk, Flat, ReuseAny,
         Candidate, Known;
    ShardKey(lib, prefix, revision, i, shards[i], previous, a);
    ShardKey(lib, prefix, revision, j, shards[j], previous, b);
    if a.key == b.key {
      if a in previous.world && b in previous.world {
        var p :| 0 <= p < |previous.world| && previous.world[p] == a;
        var q :| 0 <= q < |previous.world| && previous.world[q] == b;
        assert p == q;
        assert PathsOf(shards[i]) == PathsOf(shards[j]);
        assert PathsOf(shards[i])[0] == PathsOf(shards[j])[0];
        ShardsApart(shards, i, j, shards[i][0], shards[j][0]);
      } else if a !in previous.world && b !in previous.world {
        WorldKeysDiffer(prefix, revision, i, j);
      }
    }
  }

  /** The revisions the shards of a manifest were first published at. */
  ghost predicate Stamped(prefix: string, m: Manifest, revisions: set<nat>)
  {
    forall i :: 0 <= i < |m.world| ==> RevisionOf(prefix, m.world[i].key) in revisions
  }

  /** At a revision that no earlier shard was published at, nothing collides. */
  lemma NewRevisionNeverCollides(
    lib: Library, prefix: string, revision: nat, files: seq<File>, previous: Manifest, revisions: set<nat>)
    requires Stamped(prefix, previous, revisions) && revision !in revisions
    ensures !Collides(lib, prefix, revision, files, previous)
  {
    hide RevisionOf, WorldKey, Known, ReuseAny, Candidate;
    var shards := Classified(files).world;
    forall i: nat, j: nat ensures !CollidesAt(lib, prefix, revision, shards, previous, i, j) {
      if i < |shards| && j < |shards| && Known(previous.world, Candidate(lib, prefix, revision, j, shards[j])) {
        var b := ReuseAny(previous.world, Candidate(lib, prefix, revision, j, shards[j]));
        KnownIsReused(previous.world, Candidate(lib, prefix, revision, j, shards[j]));
        var p :| 0 <= p < |previous.world| && previous.world[p] == b;
        PrintedKeysPass(prefix, revision, i);
        assert RevisionOf(prefix, previous.world[p].key) in revisions;
      }
    }
  }

  lemma ShardPathsApart(
    lib: Library, prefix: string, revision: nat, shards: seq<seq<File>>, previous: Manifest, i: nat, j: nat, a: Blob, b: Blob, path: Path)
    requires OnDisk(Flat(shards)) && i < j < |shards|
    requires ShardBuilt(lib, prefix, revision, i, shards[i], previous, a)
    requires ShardBuilt(lib, prefix, revision, j, shards[j], previous, b)
    ensures !Meet(a, b, path)
  {
    hide Written, AllIn, WorldKey, Size, OnDisk, Flat;
    if Meet(a, b, path) {
      var x :| 0 <= x < |a.paths| && a.paths[x] == path;
      var y :| 0 <= y < |b.paths| && b.paths[y] == path;
      assert shards[i][x].path == shards[j][y].path;
      ShardsApart(shards, i, j, shards[i][x], shards[j][y]);
    }
  }

  lemma ShardMarked(
    lib: Library, prefix: string, revision: nat, index: nat, files: seq<File>, previous: Manifest, b: Blob)
    requires Sound(prefix, previous)
    requires ShardBuilt(lib, prefix, revision, index, files, previous, b)
    ensures Contains(b.key, WORLD_MARK) && b.key != ""
  {
    hide Written, AllIn, SoundContent, SoundConfig, PathsOf, Size, Below, Contains, ValidShardName, AllDigits, ReuseAny,
         Candidate, Known;
    ShardKey(lib, prefix, revision, index, files, previous, b);
    if b in previous.world {
      var i :| 0 <= i < |previous.world| && previous.world[i] == b;
      assert SoundShard(prefix, previous.world[i]);
    } else {
      WorldKeyParts(prefix, revision, index);
      BelowRoot(prefix, Decimal(revision) + "/" + (WORLD + "/" + (ShardName(index) + ARCHIVE_SUFFIX)));
    }
    WorldKeyMarked(prefix, b.key);
  }

  // ---------------------------------------------------------------- the whole draft

  ghost predicate WorldBuilt(
    lib: Library, prefix: string, revision: nat, shards: seq<seq<File>>, previous: Manifest, ds: seq<Blob>)
  {
    |ds| == |shards| && forall i :: 0 <= i < |ds| ==> ShardBuilt(lib, prefix, revision, i, shards[i], previous, ds[i])
  }

  lemma WorldIsBuilt(
    lib: Library, prefix: string, c: Command, revision: nat, files: seq<File>, previous: Manifest,
    world: seq<Archive>)
    requires Syncs(lib, prefix, c, revision, files, previous)
    requires BuildWorld(lib, prefix, revision, Classified(files).world, previous) == Ok(world)
    ensures WorldBuilt(lib, prefix, revision, Classified(files).world, previous, DescriptorsOf(world))
  {
    hide Classified, Syncs, BuildShard, ShardBuilt, BuildWorld;
    var shards := Classified(files).world;
    WorldAt(lib, prefix, revision, shards, previous, 0);
    forall i | 0 <= i < |world| ensures ShardBuilt(lib, prefix, revision, i, shards[i], previous, DescriptorsOf(world)[i]) {
      WorldAt(lib, prefix, revision, shards, previous, i);
      ShardIsBuilt(lib, prefix, c, revision, files, previous, i);
    }
  }

  lemma {:induction false} MarkedAll(archives: seq<Archive>)
    requires forall i :: 0 <= i < |archives| ==> Contains(archives[i].descriptor.key, WORLD_MARK)
    ensures Marked(archives) == DescriptorsOf(archives)
  {
    hide Contains;
    if archives != [] {
      MarkedAll(archives[..|archives| - 1]);
      assert DescriptorsOf(archives) == DescriptorsOf(archives[..|archives| - 1]) + [archives[|archives| - 1].descriptor];
    }
  }

  lemma {:induction false} MarkedConcat(a: seq<Archive>, b: seq<Archive>)
    ensures Marked(a + b) == Marked(a) + Marked(b)
    decreases |b|
  {
    hide Contains;
    if b == [] {
      assert a + b == a;
    } else {
      var most := b[..|b| - 1];
      MarkedConcat(a, most);
      assert (a + b)[..|a + b| - 1] == a + most;
    }
  }

  lemma MarkedOne(a: Archive)
    ensures Marked([a]) == if Contains(a.descriptor.key, WORLD_MARK) then [a.descriptor] else []
  {
    assert [a][..0] == [];
  }

  lemma RefusedForKeys(lib: Library, m: Manifest, c: Command, i: nat, j: nat)
    requires i < j < |Descriptors(m)| && Descriptors(m)[i].key == Descriptors(m)[j].key
    ensures !Accepted(lib, m, c)
  {
    hide Headed, Layered, WorkspacePrefix, LogicalSum, CompressedSum, AllPaths, EachValid, PathsMeetOnlyInOverlay,
         Descriptors;
    assert !KeysDiffer(Descriptors(m));
  }

  lemma ListsWorld(m: Manifest)
    requires m.content.Some? && m.world != []
    ensures Descriptors(m)[0] == m.content.value
    ensures var at := if m.config.Some? then 2 else 1; at < |Descriptors(m)| && Descriptors(m)[at] == m.world[0]
  {
  }

  /** A marked content is listed a second time, among the world archives. */
  lemma MarkedContentRefused(
    lib: Library, c: Command, revision: nat, content: Archive, config: seq<Archive>, world: seq<Archive>)
    requires Contains(content.descriptor.key, WORLD_MARK)
    ensures !Accepted(lib, ManifestOf(lib, c, revision, content, config, world), c.(revision := revision))
  {
    hide Contains, Accepted, Descriptors, Marked, LogicalSum;
    var m := ManifestOf(lib, c, revision, content, config, world);
    MarkedOne(content);
    MarkedConcat([content], config + world);
    assert [content] + (config + world) == [content] + config + world;
    assert m.world[0] == content.descriptor;
    ListsWorld(m);
    RefusedForKeys(lib, m, c.(revision := revision), 0, if m.config.Some? then 2 else 1);
  }

  lemma MarkedExactly(content: Archive, config: seq<Archive>, world: seq<Archive>)
    requires !Contains(content.descriptor.key, WORLD_MARK) && |config| <= 1
    requires config != [] ==> !Contains(config[0].descriptor.key, WORLD_MARK)
    requires forall i :: 0 <= i < |world| ==> Contains(world[i].descriptor.key, WORLD_MARK)
    ensures Marked([content] + config + world) == DescriptorsOf(world)
  {
    hide Contains, Marked;
    MarkedOne(content);
    if config != [] {
      MarkedOne(config[0]);
      assert config == [config[0]];
      MarkedConcat([content], config);
    } else {
      assert [content] + config == [content];
    }
    MarkedAll(world);
    MarkedConcat([content] + config, world);
  }

  /** Otherwise exactly the archives of the world are listed as such. */
  lemma UnmarkedManifest(
    lib: Library, c: Command, revision: nat, content: Archive, config: seq<Archive>, world: seq<Archive>)
    requires |config| <= 1 && Marked([content] + config + world) == DescriptorsOf(world)
    ensures var m := ManifestOf(lib, c, revision, content, config, world);
      m.world == DescriptorsOf(world) && Descriptors(m) == DescriptorsOf([content] + config + world)
  {
    hide Marked, LogicalSum;
    assert DescriptorsOf([content] + config + world) == [content.descriptor] + DescriptorsOf(config) + DescriptorsOf(world);
    assert config != [] ==> DescriptorsOf(config) == [config[0].descriptor];
  }

  lemma UnmarkedDescriptors(lib: Library, prefix: string, c: Command, revision: nat, files: seq<File>, previous: Manifest,
                            content: Archive, config: seq<Archive>, world: seq<Archive>)
    requires Syncs(lib, prefix, c, revision, files, previous) && SoundContent(prefix, content.descriptor)
    requires BuildConfig(lib, prefix, revision, Classified(files).config, previous) == Ok(config)
    requires WorldBuilt(lib, prefix, revision, Classified(files).world, previous, DescriptorsOf(world))
    requires !Contains(content.descriptor.key, WORLD_MARK)
    ensures |config| <= 1 && Marked([content] + config + world) == DescriptorsOf(world)
  {
    hide Contains, Classified, SoundContent, OnDisk, Digests, WorkspacePrefix, ShardBuilt, BuildConfig, SoundShard,
         RevisionLayerKey, Marked, Written;
    ContentKeyApart(prefix, content.descriptor);
    PrefixUnmarked(prefix, content.descriptor.key);
    ConfigSound(lib, prefix, c, revision, files, previous);
    if config != [] {
      ConfigKeyMarked(prefix, config[0].descriptor.key);
    }
    var shards := Classified(files).world;
    forall i | 0 <= i < |world| ensures Contains(world[i].descriptor.key, WORLD_MARK) {
      ShardMarked(lib, prefix, revision, i, shards[i], previous, DescriptorsOf(world)[i]);
    }
    MarkedExactly(content, config, world);
  }

  // ---------------------------------------------------------------- sound layers stay apart

  lemma ContentNotRevision(prefix: string, a: Blob, b: Blob)
    requires SoundContent(prefix, a) && RevisionRoot(prefix) <= b.key
    ensures a.key != b.key
  {
    hide SoundContent;
    ContentKeyApart(prefix, a);
    RevisionRootStarts(prefix, b.key);
  }

  /** The archives of a sound manifest all have keys of their own. */
  lemma SoundKeysDiffer(prefix: string, m: Manifest)
    requires Sound(prefix, m) && m.content.Some?
    ensures KeysDiffer(Descriptors(m))
  {
    hide SoundContent, Written, AllIn, Below;
    var ds := Descriptors(m);
    var n := if m.config.Some? then 2 else 1;
    assert forall i :: n <= i < |ds| ==> ds[i] == m.world[i - n];
    forall i, j | 0 <= i < j < |ds| ensures ds[i].key != ds[j].key {
      assert j >= n ==> SoundShard(prefix, m.world[j - n]);
      if i == 0 {
        ContentNotRevision(prefix, ds[0], ds[j]);
      } else if i >= n {
        assert m.world[i - n].key != m.world[j - n].key;
      }
    }
  }

  ghost predicate WorldApart(world: seq<Blob>)
  {
    forall i, j, path :: 0 <= i < j < |world| ==> !Meet(world[i], world[j], path)
  }

  lemma LayersDisjoint(path: Path)
    ensures !(IsConfigPath(path) && IsWorldPath(path)) && !(IsContentPath(path) && IsWorldPath(path))
  {
    LayersAgree(path);
  }

  lemma ContentHasNoWorld(prefix: string, b: Blob, path: Path)
    requires SoundContent(prefix, b) && path in b.paths
    ensures !IsWorldPath(path)
  {
    hide IsWorldPath, Written, ValidPaths, ContentKey, ValidDescriptor;
    var i :| 0 <= i < |b.paths| && b.paths[i] == path;
    LayersDisjoint(path);
    if b.key == ContentKey(prefix, b.sha256) {
      assert IsContentPath(b.paths[i]);
    }
  }

  /** Two archives of a sound manifest share a path only where the config lies over the content. */
  lemma SoundPathsApart(prefix: string, m: Manifest)
    requires Sound(prefix, m) && m.content.Some? && WorldApart(m.world)
    ensures PathsMeetOnlyInOverlay(m, Descriptors(m))
  {
    hide SoundContent, Written, Below, IsWorldPath, IsConfigPath;
    var ds := Descriptors(m);
    var n := if m.config.Some? then 2 else 1;
    assert forall i :: n <= i < |ds| ==> ds[i] == m.world[i - n];
    forall i, j, path | 0 <= i < j < |ds| && Meet(ds[i], ds[j], path) ensures Overlays(m, ds[j], path) {
      LayersDisjoint(path);
      assert j >= n ==> SoundShard(prefix, m.world[j - n]);
      var y :| 0 <= y < |ds[j].paths| && ds[j].paths[y] == path;
      if i == 0 {
        ContentHasNoWorld(prefix, ds[0], path);
      }
    }
  }

  // ---------------------------------------------------------------- limits

  predicate Sized(b: Blob)
  {
    b.logicalSize <= MAX_WORKSPACE_BYTES && |b.paths| <= MAX_ARCHIVE_ENTRIES
  }

  /** The quantities a restore bounds: how many archives and paths, how many bytes. */
  predicate FitsLimits(c: Command, ds: seq<Blob>)
  {
    && |ds| <= MAX_DESCRIPTORS
    && (forall i :: 0 <= i < |ds| ==> Sized(ds[i]))
    && LogicalSum(ds) <= WorkspaceLimit(c) && CompressedSum(ds) <= MAX_WORKSPACE_BYTES && |AllPaths(ds)| <= MAX_ARCHIVE_ENTRIES
  }

  lemma ContentValid(prefix: string, b: Blob)
    requires SoundContent(prefix, b)
    ensures ValidDescriptor(b) && ValidPaths(b.paths) <==> Sized(b)
    ensures ContentLayer(prefix, b) && b.logicalSize >= 0
  {
    hide ValidPaths, ValidSha256, HasSuffix, Plain;
    ContentKeyApart(prefix, b);
  }

  lemma WrittenValid(prefix: string, b: Blob)
    requires Written(b) && RevisionRoot(prefix) <= b.key
    ensures ValidDescriptor(b) && ValidPaths(b.paths) <==> Sized(b)
  {
    hide ValidPaths, ValidSha256, Plain;
    RevisionRootStarts(prefix, b.key);
  }

  lemma SoundValid(prefix: string, m: Manifest)
    requires Sound(prefix, m) && m.content.Some?
    ensures EachValid(Descriptors(m)) <==> forall i :: 0 <= i < |Descriptors(m)| ==> Sized(Descriptors(m)[i])
    ensures forall i :: 0 <= i < |Descriptors(m)| ==> Descriptors(m)[i].logicalSize >= 0
    ensures Layered(prefix, m)
  {
    hide SoundContent, ValidDescriptor, ValidPaths, Sized, Below, ContentLayer, AllIn;
    var ds := Descriptors(m);
    var n := if m.config.Some? then 2 else 1;
    assert forall i :: n <= i < |ds| ==> ds[i] == m.world[i - n];
    forall i | 0 <= i < |ds|
      ensures ValidDescriptor(ds[i]) && ValidPaths(ds[i].paths) <==> Sized(ds[i])
      ensures ds[i].logicalSize >= 0
    {
      assert i >= n ==> SoundShard(prefix, m.world[i - n]);
      if i == 0 {
        ContentValid(prefix, ds[0]);
      } else {
        WrittenValid(prefix, ds[i]);
      }
    }
    ContentValid(prefix, ds[0]);
    forall i | 0 <= i < |m.world| ensures WorldLayer(prefix, m.world[i]) {
      assert SoundShard(prefix, m.world[i]);
    }
  }

  lemma {:induction false} LogicalSumNotNegative(ds: seq<Blob>)
    requires forall i :: 0 <= i < |ds| ==> ds[i].logicalSize >= 0
    ensures LogicalSum(ds) >= 0
  {
    if ds != [] {
      LogicalSumNotNegative(ds[..|ds| - 1]);
    }
  }

  /** A sound manifest that says what it holds is accepted exactly if it is within the limits. */
  lemma SoundAccepted(lib: Library, prefix: string, m: Manifest, c: Command)
    requires Digests(lib) && WorkspacePrefix(c) == Ok(prefix)
    requires Sound(prefix, m) && WorldApart(m.world) && m.content.Some?
    requires m.schemaVersion == 2 && m.serviceId == c.serviceId && m.revision == c.revision && m.assignmentId != ""
    requires m.logicalSize == LogicalSum(Descriptors(m))
    requires m.aggregateSha256 == lib.aggregate(Descriptors(m)) && m.manifestHash == m.aggregateSha256
    ensures Accepted(lib, m, c) <==> FitsLimits(c, Descriptors(m))
  {
    hide Sound, Layered, WorkspacePrefix, EachValid, KeysDiffer, PathsMeetOnlyInOverlay, AllPaths, CompressedSum,
         LogicalSum, Sized, ValidSha256, WorldApart;
    SoundKeysDiffer(prefix, m);
    SoundPathsApart(prefix, m);
    SoundValid(prefix, m);
    LogicalSumNotNegative(Descriptors(m));
  }

  // ---------------------------------------------------------------- drafts are sound, and accepted

  lemma WorldSound(lib: Library, prefix: string, revision: nat, files: seq<File>, previous: Manifest, ds: seq<Blob>)
    requires Sound(prefix, previous) && OnDisk(files) && |ds| <= SHARD_NUMBERS
    requires WorldBuilt(lib, prefix, revision, Classified(files).world, previous, ds)
    requires !Collides(lib, prefix, revision, files, previous)
    ensures forall i :: 0 <= i < |ds| ==> SoundShard(prefix, ds[i])
    ensures KeysDiffer(ds) && WorldApart(ds)
  {
    hide Sound, OnDisk, ShardBuilt, Classified, SoundShard, Flat, Meet, CollidesAt;
    var shards := Classified(files).world;
    LayersOnDisk(files);
    ClassifiedPaced(files);
    forall i | 0 <= i < |ds| ensures SoundShard(prefix, ds[i]) {
      ShardSound(lib, prefix, revision, i, shards[i], previous, ds[i]);
    }
    forall i, j | 0 <= i < j < |ds| ensures ds[i].key != ds[j].key {
      assert ShardFits(shards[i]);
      ShardKeysDiffer(lib, prefix, revision, shards, previous, i, j, ds[i], ds[j]);
    }
    forall i, j, path | 0 <= i < j < |ds| ensures !Meet(ds[i], ds[j], path) {
      ShardPathsApart(lib, prefix, revision, shards, previous, i, j, ds[i], ds[j], path);
    }
  }

  lemma DraftParts(
    lib: Library, prefix: string, c: Command, revision: nat, files: seq<File>, previous: Manifest, draft: Draft)
    returns (content: Archive, config: seq<Archive>, world: seq<Archive>)
    requires BuildManifest(lib, prefix, c, revision, files, previous) == Ok(draft)
    ensures BuildContent(lib, prefix, c, Classified(files).content, previous) == Ok(content)
    ensures BuildConfig(lib, prefix, revision, Classified(files).config, previous) == Ok(config)
    ensures BuildWorld(lib, prefix, revision, Classified(files).world, previous) == Ok(world)
    ensures draft.manifest == ManifestOf(lib, c, revision, content, config, world) && draft.archives == [content] + config + world
  {
    content := BuildContent(lib, prefix, c, Classified(files).content, previous).value;
    config := BuildConfig(lib, prefix, revision, Classified(files).config, previous).value;
    world := BuildWorld(lib, prefix, revision, Classified(files).world, previous).value;
  }

  /** The content a sync takes over as it is: the selected runtime, or what the compiler published before. */
  function TakenOver(c: Command, previous: Manifest): Option<Blob>
  {
    if c.runtimeContent.Some? then c.runtimeContent
    else if previous.content.Some? && IsCompilerContent(previous.content.value) then previous.content
    else None
  }

  /** The world mark is neither in the key of a content that is taken over nor, for own content, in the prefix. */
  predicate Unmarked(prefix: string, c: Command, previous: Manifest)
  {
    var kept := TakenOver(c, previous);
    !Contains(if kept.Some? then kept.value.key else prefix + "/", WORLD_MARK)
  }

  /** The key of own content has a mark exactly if the prefix has it. */
  lemma OwnKeyMarked(prefix: string, sha: string, part: string)
    requires ValidSha256(sha) && '/' !in part && part != "content"
    ensures Contains(ContentKey(prefix, sha), "/" + part + "/") <==> Contains(prefix + "/", "/" + part + "/")
  {
    hide Contains, Split;
    var rest := "content" + "/" + (sha + ARCHIVE_SUFFIX);
    assert ContentKey(prefix, sha) == prefix + "/" + rest;
    assert '/' !in sha + ARCHIVE_SUFFIX by {
      assert forall i :: 0 <= i < |sha| ==> HexDigit(sha[i]);
      assert !HexDigit('/');
    }
    SplitJoined("content", '/', sha + ARCHIVE_SUFFIX);
    SinglePart("content", '/');
    SinglePart(sha + ARCHIVE_SUFFIX, '/');
    assert Split(rest, '/') == ["content", sha + ARCHIVE_SUFFIX];
    MarkInPrefix(prefix, rest, part);
  }

  /** Whether the content of a draft has the mark can be told from what the sync is given. */
  lemma ContentMarkedByInputs(
    lib: Library, prefix: string, c: Command, revision: nat, files: seq<File>, previous: Manifest, content: Archive)
    requires Syncs(lib, prefix, c, revision, files, previous)
    requires BuildContent(lib, prefix, c, Classified(files).content, previous) == Ok(content)
    ensures Contains(content.descriptor.key, WORLD_MARK) <==> !Unmarked(prefix, c, previous)
  {
    hide Classified, BuildArchive, Contains, IsCompilerContent, ContentKey, SameArchive, OnDisk, Digests, WorkspacePrefix,
         RuntimeContent, AllIn, ValidPaths, Plain, ValidSha256;
    assert "/" + WORLD + "/" == WORLD_MARK;
    if TakenOver(c, previous).None? {
      var layer := Classified(files).content;
      LayersOnDisk(files);
      OnDiskArchive(lib, layer);
      OwnKeyMarked(prefix, BuildArchive(lib, layer).value.descriptor.sha256, WORLD);
      if previous.content.Some? {
        var was := previous.content.value;
        assert SoundContent(prefix, was);
        ContentKeyApart(prefix, was);
        assert was.key == ContentKey(prefix, was.sha256) && Written(was);
        OwnKeyMarked(prefix, was.sha256, WORLD);
      }
    }
  }

  /** A draft whose content has no world mark lists exactly its archives. */
  lemma DraftLists(
    lib: Library, prefix: string, c: Command, revision: nat, files: seq<File>, previous: Manifest, draft: Draft,
    content: Archive, config: seq<Archive>, world: seq<Archive>)
    requires Syncs(lib, prefix, c, revision, files, previous) && Unmarked(prefix, c, previous)
    requires BuildContent(lib, prefix, c, Classified(files).content, previous) == Ok(content)
    requires BuildConfig(lib, prefix, revision, Classified(files).config, previous) == Ok(config)
    requires BuildWorld(lib, prefix, revision, Classified(files).world, previous) == Ok(world)
    requires draft.manifest == ManifestOf(lib, c, revision, content, config, world) && draft.archives == [content] + config + world
    ensures |config| <= 1 && draft.manifest.world == DescriptorsOf(world)
    ensures Descriptors(draft.manifest) == DescriptorsOf(draft.archives)
    ensures SoundContent(prefix, content.descriptor)
    ensures WorldBuilt(lib, prefix, revision, Classified(files).world, previous, DescriptorsOf(world))
  {
    hide Classified, BuildContent, BuildConfig, BuildWorld, Contains, Syncs, SoundContent, WorldBuilt, Marked, Unmarked,
         ManifestOf, Descriptors, DescriptorsOf;
    ContentMarkedByInputs(lib, prefix, c, revision, files, previous, content);
    ContentSound(lib, prefix, c, revision, files, previous);
    WorldIsBuilt(lib, prefix, c, revision, files, previous, world);
    UnmarkedDescriptors(lib, prefix, c, revision, files, previous, content, config, world);
    UnmarkedManifest(lib, c, revision, content, config, world);
  }

  /** A draft keeps the invariant of the manifest it was built on, unless it collides or has the world mark. */
  lemma DraftSound(
    lib: Library, prefix: string, c: Command, revision: nat, files: seq<File>, previous: Manifest, draft: Draft)
    requires Syncs(lib, prefix, c, revision, files, previous)
    requires BuildManifest(lib, prefix, c, revision, files, previous) == Ok(draft) && |draft.archives| <= SHARD_NUMBERS
    requires Unmarked(prefix, c, previous) && !Collides(lib, prefix, revision, files, previous)
    ensures draft.manifest.content.Some? && Sound(prefix, draft.manifest) && WorldApart(draft.manifest.world)
    ensures Descriptors(draft.manifest) == DescriptorsOf(draft.archives)
  {
    hide BuildManifest, Classified, Contains, BuildContent, BuildConfig, BuildWorld, Syncs, SoundContent, SoundConfig,
         SoundShard, WorldBuilt, WorldApart, Marked, LogicalSum, Unmarked, Collides;
    var content, config, world := DraftParts(lib, prefix, c, revision, files, previous, draft);
    SyncsGive(lib, prefix, c, revision, files, previous);
    DraftLists(lib, prefix, c, revision, files, previous, draft, content, config, world);
    ConfigSound(lib, prefix, c, revision, files, previous);
    WorldSound(lib, prefix, revision, files, previous, DescriptorsOf(world));
  }

  lemma SyncsGive(lib: Library, prefix: string, c: Command, revision: nat, files: seq<File>, previous: Manifest)
    requires Syncs(lib, prefix, c, revision, files, previous)
    ensures Sound(prefix, previous) && OnDisk(files) && Digests(lib)
    ensures WorkspacePrefix(c) == Ok(prefix) && c.assignmentId != ""
  {
  }

  /** The two archives of a collision are both listed. */
  lemma CollisionRefused(
    lib: Library, prefix: string, c: Command, revision: nat, files: seq<File>, previous: Manifest, draft: Draft)
    requires Syncs(lib, prefix, c, revision, files, previous) && Unmarked(prefix, c, previous)
    requires BuildManifest(lib, prefix, c, revision, files, previous) == Ok(draft)
    requires Collides(lib, prefix, revision, files, previous)
    ensures !Accepted(lib, draft.manifest, c.(revision := revision))
  {
    hide BuildManifest, Classified, Contains, BuildContent, BuildConfig, BuildWorld, Syncs, SoundContent, Accepted, Unmarked,
         ManifestOf, Descriptors, CollidesAt, ShardBuilt, OnDisk, Sound;
    var content, config, world := DraftParts(lib, prefix, c, revision, files, previous, draft);
    SyncsGive(lib, prefix, c, revision, files, previous);
    DraftLists(lib, prefix, c, revision, files, previous, draft, content, config, world);
    LayersOnDisk(files);
    ClassifiedPaced(files);
    var shards, ds, n := Classified(files).world, DescriptorsOf(world), 1 + |config|;
    var i: nat, j: nat :| CollidesAt(lib, prefix, revision, shards, previous, i, j);
    CollisionWithin(lib, prefix, revision, shards, previous, i, j);
    var low, high := if i < j then i else j, if i < j then j else i;
    assert ShardFits(shards[low]);
    ShardKeysDiffer(lib, prefix, revision, shards, previous, low, high, ds[low], ds[high]);
    assert DescriptorsOf(draft.archives)[n + low] == ds[low] && DescriptorsOf(draft.archives)[n + high] == ds[high];
    RefusedForKeys(lib, draft.manifest, c.(revision := revision), n + low, n + high);
  }

  lemma CollisionWithin(
    lib: Library, prefix: string, revision: nat, shards: seq<seq<File>>, previous: Manifest, i: nat, j: nat)
    requires CollidesAt(lib, prefix, revision, shards, previous, i, j)
    ensures i < |shards| && j < |shards| && i != j
  {
  }

  /**
   The draft of a sync, at any revision and on any sound manifest, is accepted by a later restore exactly if it is
   within the limits, has no world mark, and no new shard gets the key a reused one was published under.
   */
  lemma DraftAcceptedExactly(
    lib: Library, prefix: string, c: Command, revision: nat, files: seq<File>, previous: Manifest, draft: Draft)
    requires Syncs(lib, prefix, c, revision, files, previous)
    requires BuildManifest(lib, prefix, c, revision, files, previous) == Ok(draft)
    ensures Accepted(lib, draft.manifest, c.(revision := revision)) <==>
        && FitsLimits(c, DescriptorsOf(draft.archives))
        && Unmarked(prefix, c, previous)
        && !Collides(lib, prefix, revision, files, previous)
  {
    hide BuildManifest, Classified, Contains, BuildContent, BuildConfig, BuildWorld, Syncs, Sound, WorldApart,
         FitsLimits, Accepted, ManifestOf, LogicalSum, Unmarked, Collides, Descriptors, DescriptorsOf, SHARD_NUMBERS;
    var content, config, world := DraftParts(lib, prefix, c, revision, files, previous, draft);
    var m, at := draft.manifest, c.(revision := revision);
    SyncsGive(lib, prefix, c, revision, files, previous);
    HeadOf(lib, c, revision, content, config, world);
    if !Unmarked(prefix, c, previous) {
      ContentMarkedByInputs(lib, prefix, c, revision, files, previous, content);
      MarkedContentRefused(lib, c, revision, content, config, world);
    } else if Collides(lib, prefix, revision, files, previous) {
      CollisionRefused(lib, prefix, c, revision, files, previous, draft);
    } else {
      DraftLists(lib, prefix, c, revision, files, previous, draft, content, config, world);
      if |draft.archives| <= MAX_DESCRIPTORS {
        ManyShardNumbers();
        DraftSound(lib, prefix, c, revision, files, previous, draft);
        assert WorkspacePrefix(at) == Ok(prefix);
        SoundAccepted(lib, prefix, m, at);
        LimitsByCommand(c, revision, Descriptors(m));
      } else {
        ArchiveCount(draft.archives);
        TooMany(lib, m, at, c);
      }
    }
  }

  lemma ArchiveCount(archives: seq<Archive>)
    ensures |DescriptorsOf(archives)| == |archives|
  {
  }

  lemma HeadOf(lib: Library, c: Command, revision: nat, content: Archive, config: seq<Archive>, world: seq<Archive>)
    ensures var m := ManifestOf(lib, c, revision, content, config, world);
      && m.schemaVersion == 2 && m.serviceId == c.serviceId && m.assignmentId == c.assignmentId && m.revision == revision
      && m.content == Some(content.descriptor)
      && m.logicalSize == LogicalSum(DescriptorsOf([content] + config + world))
      && m.aggregateSha256 == lib.aggregate(Descriptors(m)) && m.manifestHash == m.aggregateSha256
  {
    hide LogicalSum, Marked;
    var m := ManifestOf(lib, c, revision, content, config, world);
    assert Descriptors(m.(aggregateSha256 := "", manifestHash := "")) == Descriptors(m);
  }

  lemma LimitsByCommand(c: Command, revision: nat, ds: seq<Blob>)
    ensures FitsLimits(c.(revision := revision), ds) <==> FitsLimits(c, ds)
  {
  }

  lemma TooMany(lib: Library, m: Manifest, at: Command, c: Command)
    requires |Descriptors(m)| > MAX_DESCRIPTORS
    ensures !Accepted(lib, m, at) && !FitsLimits(c, Descriptors(m))
  {
  }
}
