/**
 Why a sync must be of a later revision than the manifest it builds on: at the same revision, files that have
 changed can give a new shard the key under which an unchanged one was published.
 */
module Collision {
  import opened Bytes
  import opened Options
  import opened Sorting
  import opened Layers
  import opened Keys
  import opened Text
  import opened Manifests
  import opened Drafts
  import opened Acceptance
  import opened History

  function InWorld(name: char, data: Bytes): File
  {
    File(WORLD + "/" + [name], data)
  }

  lemma InWorldGroup(name: char, data: Bytes)
    requires name != '/'
    ensures LayerOf(InWorld(name, data).path) == World && GroupOf(InWorld(name, data).path) == InWorld(name, data).path
  {
    hide Split;
    SplitJoined(WORLD, '/', [name]);
    SinglePart(WORLD, '/');
    SinglePart([name], '/');
    assert Split(InWorld(name, data).path, '/') == [WORLD, [name]];
  }

  lemma SortOne(f: File)
    ensures Sort(FileLess, [f]) == [f] && Shards([f]) == [[f]]
  {
    FileOrder([f]);
    SortFixesSorted(FileLess, [f]);
    assert [f][..0] == [];
  }

  lemma SortNone()
    ensures Sort(FileLess, []) == []
  {
  }

  lemma SelectOfTwo(p: File -> bool, f: File, g: File)
    ensures Select(p, [f]) == if p(f) then [f] else []
    ensures Select(p, [f, g]) == (if p(f) then [f] else []) + if p(g) then [g] else []
  {
    assert [f][..0] == [] && [f, g][..1] == [f];
    assert Select(p, []) == [];
  }

  lemma KeysOfTwo(f: File, g: File)
    requires LayerOf(f.path) == World && LayerOf(g.path) == World
    ensures GroupKeys([f]) == [GroupOf(f.path)]
    ensures GroupOf(f.path) != GroupOf(g.path) ==> GroupKeys([f, g]) == [GroupOf(f.path), GroupOf(g.path)]
  {
    hide LayerOf, GroupOf;
    assert [f, g][..1] == [f] && [f][..0] == [];
    assert GroupKeys([]) == [];
  }

  lemma OneShard(f: File)
    requires LayerOf(f.path) == World
    ensures Classified([f]) == Layering([], [], [[f]])
  {
    hide LayerOf, GroupOf, Sort, Shards, FileLess, Select, GroupKeys, StringLess;
    var files, key := [f], GroupOf(f.path);
    KeysOfTwo(f, f);
    SelectOfTwo(InLayer(Content), f, f);
    SelectOfTwo(InLayer(Config), f, f);
    SelectOfTwo(InGroup(key), f, f);
    StringOrder();
    SortFixesSorted(StringLess, [key]);
    SortOne(f);
    SortNone();
    OneWorldShard(files, key, f);
  }

  lemma TwoShards(f: File, g: File)
    requires LayerOf(f.path) == World && LayerOf(g.path) == World
    requires StringLess(GroupOf(f.path), GroupOf(g.path)) && GroupOf(f.path) != GroupOf(g.path)
    ensures Classified([f, g]) == Layering([], [], [[f], [g]])
  {
    hide LayerOf, GroupOf, Sort, Shards, FileLess, StringLess, Select, GroupKeys, WorldShards;
    var files, j, k := [f, g], GroupOf(f.path), GroupOf(g.path);
    KeysOfTwo(f, g);
    SelectOfTwo(InLayer(Content), f, g);
    SelectOfTwo(InLayer(Config), f, g);
    SelectOfTwo(InGroup(j), f, g);
    SelectOfTwo(InGroup(k), f, g);
    StringOrder();
    SortFixesSorted(StringLess, [j, k]);
    SortOne(f);
    SortOne(g);
    SortNone();
    assert Select(InGroup(j), files) == [f] && Select(InGroup(k), files) == [g];
    TwoWorldShards(files, j, k, f, g);
  }

  lemma OneWorldShard(files: seq<File>, j: string, f: File)
    requires Shards(Sort(FileLess, Select(InGroup(j), files))) == [[f]]
    ensures WorldShards(files, [j]) == [[f]]
  {
    hide Shards, Sort, Select, InGroup, FileLess;
    assert [j][..0] == [];
    assert WorldShards(files, []) == [];
  }

  lemma TwoWorldShards(files: seq<File>, j: string, k: string, f: File, g: File)
    requires Shards(Sort(FileLess, Select(InGroup(j), files))) == [[f]]
    requires Shards(Sort(FileLess, Select(InGroup(k), files))) == [[g]]
    ensures WorldShards(files, [j, k]) == [[f], [g]]
  {
    hide Shards, Sort, Select, InGroup, FileLess;
    assert [j, k][..1] == [j] && [j][..0] == [];
    assert WorldShards(files, [j]) == WorldShards(files, []) + [[f]] == [[f]];
    assert WorldShards(files, [j, k]) == WorldShards(files, [j]) + [[g]];
  }

  lemma OneArchive(lib: Library, prefix: string, revision: nat, f: File, previous: Manifest, b: Blob)
    requires BuildArchive(lib, [f]).Ok? && BuildArchive(lib, [f]).value.descriptor == b && previous.world == []
    ensures var r := BuildWorld(lib, prefix, revision, [[f]], previous);
      r.Ok? && DescriptorsOf(r.value) == [b.(key := WorldKey(prefix, revision, 0))]
  {
    hide BuildArchive, WorldKey;
    assert [[f]][..0] == [];
    assert BuildShard(lib, prefix, revision, 0, [f], previous).Ok?;
  }

  lemma TwoArchives(lib: Library, prefix: string, revision: nat, f: File, g: File, previous: Manifest, a: Blob, b: Blob)
    requires BuildArchive(lib, [f]).Ok? && BuildArchive(lib, [f]).value.descriptor == a
    requires BuildArchive(lib, [g]).Ok? && BuildArchive(lib, [g]).value.descriptor == b
    requires previous.world == [b.(key := WorldKey(prefix, revision, 0))] && Joined(a.paths) != Joined(b.paths)
    ensures var r := BuildWorld(lib, prefix, revision, [[f], [g]], previous);
      r.Ok? && |r.value| == 2
      && r.value[0].descriptor.key == WorldKey(prefix, revision, 0) && r.value[1].descriptor.key == WorldKey(prefix, revision, 0)
  {
    hide BuildArchive, WorldKey, Joined;
    var old0 := previous.world[0];
    var newA := a.(key := WorldKey(prefix, revision, 0));
    var newB := b.(key := WorldKey(prefix, revision, 1));
    assert previous.world[1..] == [];
    assert ReuseAny(previous.world, newA) == newA;
    assert SameArchive(old0, newB) && ReuseAny(previous.world, newB) == old0;
    var shards := [[f], [g]];
    assert shards[..1] == [[f]] && [[f]][..0] == [];
    assert BuildShard(lib, prefix, revision, 0, [f], previous).value.descriptor == newA;
    assert BuildShard(lib, prefix, revision, 1, [g], previous).value.descriptor == old0;
    assert BuildWorld(lib, prefix, revision, [], previous) == Ok([]);
    assert BuildWorld(lib, prefix, revision, [[f]], previous).Ok?;
    assert BuildWorld(lib, prefix, revision, [[f]], previous).value == [BuildShard(lib, prefix, revision, 0, [f], previous).value];
  }

  lemma NothingBut(lib: Library, prefix: string, revision: nat, previous: Manifest)
    ensures BuildConfig(lib, prefix, revision, [], previous) == Ok([])
  {
  }

  lemma PathsDiffer(a: Blob, b: Blob, f: File, g: File)
    requires a.paths == PathsOf([f]) && b.paths == PathsOf([g]) && f.path != g.path
    ensures Joined(a.paths) != Joined(b.paths)
  {
    assert a.paths == [f.path] && b.paths == [g.path];
  }

  lemma ArchiveOk(lib: Library, name: char, data: Bytes)
    requires name != '/' && name != '.' && name != '\\' && |data| <= MAX_WORKSPACE_BYTES
    requires |lib.encode([InWorld(name, data)])| <= MAX_BLOB_BYTES
    ensures BuildArchive(lib, [InWorld(name, data)]).Ok?
    ensures BuildArchive(lib, [InWorld(name, data)]).value.descriptor.paths == PathsOf([InWorld(name, data)])
  {
    hide Split;
    var path := InWorld(name, data).path;
    SplitJoined(WORLD, '/', [name]);
    SinglePart(WORLD, '/');
    SinglePart([name], '/');
    assert Split(path, '/') == [WORLD, [name]];
    assert path == ['w', 'o', 'r', 'l', 'd', '/', name];
    assert ValidWorkspacePath(path);
  }

  lemma PrintedMarked(prefix: string, revision: nat, index: nat)
    ensures Contains(WorldKey(prefix, revision, index), WORLD_MARK)
  {
    hide Below, Contains;
    WorldKeyParts(prefix, revision, index);
    BelowRoot(prefix, Decimal(revision) + "/" + (WORLD + "/" + (ShardName(index) + ARCHIVE_SUFFIX)));
    WorldKeyMarked(prefix, WorldKey(prefix, revision, index));
  }

  /** The world of a manifest without config and without a mark in the key of its content. */
  lemma OnlyWorld(lib: Library, prefix: string, c: Command, revision: nat, content: Archive, world: seq<Archive>)
    requires !Contains(content.descriptor.key, WORLD_MARK)
    requires forall i :: 0 <= i < |world| ==> Contains(world[i].descriptor.key, WORLD_MARK)
    ensures var m := ManifestOf(lib, c, revision, content, [], world);
      m.world == DescriptorsOf(world) && Descriptors(m) == [content.descriptor] + DescriptorsOf(world)
  {
    hide Contains, Marked, LogicalSum;
    MarkedExactly(content, [], world);
    UnmarkedManifest(lib, c, revision, content, [], world);
    assert [content] + [] + world == [content] + world;
  }

  /** The second sync, given what the first one built. */
  lemma SecondRefused(
    lib: Library, prefix: string, c: Command, revision: nat, f: File, g: File, m: Manifest, a: Blob, b: Blob)
    requires BuildArchive(lib, [f]).Ok? && BuildArchive(lib, [f]).value.descriptor == a
    requires BuildArchive(lib, [g]).Ok? && BuildArchive(lib, [g]).value.descriptor == b && Joined(a.paths) != Joined(b.paths)
    requires Classified([f, g]) == Layering([], [], [[f], [g]])
    requires BuildContent(lib, prefix, c, [], m).Ok?
    requires Contains(BuildContent(lib, prefix, c, [], m).value.descriptor.key, WORLD_MARK) ||
      m.world == [b.(key := WorldKey(prefix, revision, 0))]
    requires BuildWorld(lib, prefix, revision, [[f], [g]], m).Ok?
    ensures var second := BuildManifest(lib, prefix, c, revision, [f, g], m);
      second.Ok? && !Accepted(lib, second.value.manifest, c.(revision := revision))
  {
    hide BuildContent, BuildArchive, Classified, BuildWorld, WorldKey, Contains, Accepted, ManifestOf, BuildConfig,
         Joined;
    NothingBut(lib, prefix, revision, m);
    var content := BuildContent(lib, prefix, c, [], m).value;
    var world := BuildWorld(lib, prefix, revision, [[f], [g]], m).value;
    var second := BuildManifest(lib, prefix, c, revision, [f, g], m).value.manifest;
    assert second == ManifestOf(lib, c, revision, content, [], world);
    if Contains(content.descriptor.key, WORLD_MARK) {
      MarkedContentRefused(lib, c, revision, content, [], world);
    } else {
      TwoArchives(lib, prefix, revision, f, g, m, a, b);
      PrintedMarked(prefix, revision, 0);
      OnlyWorld(lib, prefix, c, revision, content, world);
      RefusedForKeys(lib, second, c.(revision := revision), 1, 2);
    }
  }

  /**
   The node synced a world with one file `b` at some revision, and then syncs it again at that revision after a
   file `a` was added: both shards get one key, and the manifest is refused.
   */
  lemma SameRevisionCollides(lib: Library, prefix: string, c: Command, revision: nat, x: Bytes, y: Bytes)
    requires c.runtimeContent.None? && |x| <= MAX_WORKSPACE_BYTES && |y| <= MAX_WORKSPACE_BYTES
    requires |lib.encode([InWorld('a', x)])| <= MAX_BLOB_BYTES && |lib.encode([InWorld('b', y)])| <= MAX_BLOB_BYTES
    requires |lib.encode([])| <= MAX_BLOB_BYTES
    ensures var first := BuildManifest(lib, prefix, c, revision, [InWorld('b', y)], NO_MANIFEST);
      && first.Ok?
      && var second := BuildManifest(lib, prefix, c, revision, [InWorld('a', x), InWorld('b', y)], first.value.manifest);
         second.Ok? && !Accepted(lib, second.value.manifest, c.(revision := revision))
  {
    hide BuildArchive, Classified, BuildWorld, WorldKey, Contains, Accepted, ManifestOf, BuildConfig, PathsOf, Joined,
         GroupOf, LayerOf, IsCompilerContent;
    var f, g := InWorld('a', x), InWorld('b', y);
    InWorldGroup('a', x);
    InWorldGroup('b', y);
    assert f.path[6] != g.path[6];
    OneShard(g);
    LexAfterPrefix(CharRank, WORLD + "/", "a", "b");
    TwoShards(f, g);
    ArchiveOk(lib, 'a', x);
    ArchiveOk(lib, 'b', y);
    EmptyOk(lib);
    var a, b := BuildArchive(lib, [f]).value.descriptor, BuildArchive(lib, [g]).value.descriptor;
    PathsDiffer(a, b, f, g);
    NothingBut(lib, prefix, revision, NO_MANIFEST);
    OneArchive(lib, prefix, revision, g, NO_MANIFEST, b);
    var content := BuildContent(lib, prefix, c, [], NO_MANIFEST).value;
    var world := BuildWorld(lib, prefix, revision, [[g]], NO_MANIFEST).value;
    var m := BuildManifest(lib, prefix, c, revision, [g], NO_MANIFEST).value.manifest;
    assert m == ManifestOf(lib, c, revision, content, [], world);
    HeadOf(lib, c, revision, content, [], world);
    ContentAgain(lib, prefix, c, [], NO_MANIFEST, m, content);
    if !Contains(content.descriptor.key, WORLD_MARK) {
      PrintedMarked(prefix, revision, 0);
      assert DescriptorsOf(world)[0] == world[0].descriptor;
      OnlyWorld(lib, prefix, c, revision, content, world);
    }
    WorldOk(lib, prefix, revision, f, g, m);
    SecondRefused(lib, prefix, c, revision, f, g, m, a, b);
  }

  lemma EmptyOk(lib: Library)
    requires |lib.encode([])| <= MAX_BLOB_BYTES
    ensures BuildArchive(lib, []).Ok?
  {
  }

  lemma WorldOk(lib: Library, prefix: string, revision: nat, f: File, g: File, m: Manifest)
    requires BuildArchive(lib, [f]).Ok? && BuildArchive(lib, [g]).Ok?
    ensures BuildWorld(lib, prefix, revision, [[f], [g]], m).Ok?
  {
    hide BuildArchive, ReuseAny;
    assert [[f], [g]][..1] == [[f]] && [[f]][..0] == [];
    assert BuildWorld(lib, prefix, revision, [], m) == Ok([]);
    assert BuildShard(lib, prefix, revision, 0, [f], m).Ok? && BuildShard(lib, prefix, revision, 1, [g], m).Ok?;
    assert BuildWorld(lib, prefix, revision, [[f]], m).Ok?;
  }
}
