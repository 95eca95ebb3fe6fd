/**
 How a workspace is split into a content layer, a config layer and shards of world files. Paths are Go
 strings, one character a byte.
 */
module Layers {
  import opened Bytes
  import opened Sorting
  import opened Text

  type Path = string

  datatype File = File(path: Path, data: Bytes)

  const WORLD_TARGET_BYTES: nat := 192 * 1024 * 1024

  // ---------------------------------------------------------------- order and parts of a path

  function CharRank(c: char): int
  {
    c as int
  }

  /** Go's `<` on strings. */
  predicate StringLess(a: string, b: string)
  {
    LexLess(CharRank, a, b)
  }

  predicate FileLess(a: File, b: File)
  {
    StringLess(a.path, b.path)
  }

  lemma StringOrder()
    ensures StrictOrder(StringLess)
    ensures forall a, b :: a != b ==> StringLess(a, b) || StringLess(b, a)
  {
    forall a: string ensures !StringLess(a, a) {
      LexIrreflexive(CharRank, a);
    }
    forall a, b, c | StringLess(a, b) && StringLess(b, c) ensures StringLess(a, c) {
      LexTransitive(CharRank, a, b, c);
    }
    forall a: string, b: string | a != b ensures StringLess(a, b) || StringLess(b, a) {
      LexTotal(CharRank, a, b);
    }
  }

  ghost predicate DistinctPaths(files: seq<File>)
  {
    forall i, j :: 0 <= i < |files| && 0 <= j < |files| && i != j ==> files[i].path != files[j].path
  }

  lemma FileOrder(files: seq<File>)
    requires DistinctPaths(files)
    ensures StrictOrder(FileLess) && Comparable(FileLess, files)
  {
    StringOrder();
  }

  // ---------------------------------------------------------------- layers

  datatype Layer = Content | Config | World

  const WORLD := "world"
  const NETHER := "world_nether"
  const THE_END := "world_the_end"
  const CONFIG := "config"
  const DEFAULTS := "defaultconfigs"

  predicate WorldRoot(part: string)
  {
    part == WORLD || part == NETHER || part == THE_END
  }

  predicate ConfigRoot(part: string)
  {
    part == CONFIG || part == DEFAULTS
  }

  /** The layer `classify` puts a path into. */
  function LayerOf(path: Path): Layer
  {
    var first := Split(path, '/')[0];
    if WorldRoot(first) then World else if ConfigRoot(first) then Config else Content
  }

  /** The group a world file is sharded in: its first two parts. */
  function GroupOf(path: Path): string
  {
    var parts := Split(path, '/');
    if |parts| > 1 then parts[0] + "/" + parts[1] else parts[0]
  }

  /** `path == root || strings.HasPrefix(path, root+"/")`. */
  predicate Under(path: Path, root: string)
  {
    path == root || root + "/" <= path
  }

  predicate IsWorldPath(path: Path)
  {
    Under(path, WORLD) || Under(path, NETHER) || Under(path, THE_END)
  }

  predicate IsConfigPath(path: Path)
  {
    Under(path, CONFIG) || Under(path, DEFAULTS)
  }

  predicate IsContentPath(path: Path)
  {
    !IsWorldPath(path) && !IsConfigPath(path)
  }

  lemma {:induction false} FirstPartUnder(path: Path, root: string)
    requires '/' !in root
    ensures Split(path, '/')[0] == root <==> Under(path, root)
  {
    if path == [] {
    } else if path[0] == '/' {
      assert root == "" ==> root + "/" == "/" && "/" <= path;
      assert root != "" ==> (root + "/")[0] == root[0] != path[0];
    } else if root == "" {
      assert root + "/" == "/";
      assert Split(path, '/')[0] != "";
    } else {
      var rest := Split(path[1..], '/');
      FirstPartUnder(path[1..], root[1..]);
      assert Split(path, '/')[0] == [path[0]] + rest[0];
      assert root == [root[0]] + root[1..] && path == [path[0]] + path[1..];
      assert root + "/" == [root[0]] + (root[1..] + "/");
      assert root + "/" <= path <==> root[0] == path[0] && root[1..] + "/" <= path[1..] by {
        PrefixStep(root[0], root[1..] + "/", path[0], path[1..]);
      }
    }
  }

  lemma PrefixStep(a: char, s: string, b: char, t: string)
    ensures [a] + s <= [b] + t <==> a == b && s <= t
  {
    if [a] + s <= [b] + t {
      assert ([a] + s)[0] == ([b] + t)[0];
      assert forall i :: 0 <= i < |s| ==> s[i] == ([a] + s)[i + 1] && t[i] == ([b] + t)[i + 1];
    }
  }

  /** The layers agree with the prefix predicates that manifests are validated with. */
  lemma LayersAgree(path: Path)
    ensures LayerOf(path) == World <==> IsWorldPath(path)
    ensures LayerOf(path) == Config <==> IsConfigPath(path)
    ensures LayerOf(path) == Content <==> IsContentPath(path)
  {
    hide Split, Under;
    FirstPartUnder(path, WORLD);
    FirstPartUnder(path, NETHER);
    FirstPartUnder(path, THE_END);
    FirstPartUnder(path, CONFIG);
    FirstPartUnder(path, DEFAULTS);
  }

  /** World files lie under the three dimensions, config files under the two directories of settings. */
  lemma LayersSpelled(path: Path)
    ensures LayerOf(path) == World <==>
      || path == "world" || "world/" <= path || path == "world_nether" || "world_nether/" <= path
      || path == "world_the_end" || "world_the_end/" <= path
    ensures LayerOf(path) == Config <==>
      path == "config" || "config/" <= path || path == "defaultconfigs" || "defaultconfigs/" <= path
  {
    LayersAgree(path);
    assert WORLD + "/" == "world/" && NETHER + "/" == "world_nether/" && THE_END + "/" == "world_the_end/";
    assert CONFIG + "/" == "config/" && DEFAULTS + "/" == "defaultconfigs/";
  }

  /** Up to `k` the strings agree, and there the first one ends or has the lower byte. */
  predicate ByteLowerAt(a: string, b: string, k: nat)
  {
    k <= |a| && k < |b| && a[..k] == b[..k] && (k == |a| || a[k] as int < b[k] as int)
  }

  /** Go's order of strings: where they first differ, the lower byte decides, and a prefix comes first. */
  lemma StringLessMeans(a: string, b: string)
    ensures StringLess(a, b) <==> exists k: nat :: ByteLowerAt(a, b, k)
  {
    LexMeans(CharRank, a, b);
    if StringLess(a, b) {
      var k: nat :| LowerAt(CharRank, a, b, k);
      assert ByteLowerAt(a, b, k);
    }
    if k: nat :| ByteLowerAt(a, b, k) {
      assert LowerAt(CharRank, a, b, k);
    }
  }

  // ---------------------------------------------------------------- what `classify` computes

  /** The files that satisfy `p`, in order. */
  function Select(p: File -> bool, files: seq<File>): (r: seq<File>)
  {
    if files == [] then []
    else
      var most, f := Select(p, files[..|files| - 1]), files[|files| - 1];
      if p(f) then most + [f] else most
  }

  function InLayer(layer: Layer): File -> bool
  {
    (f: File) => LayerOf(f.path) == layer
  }

  function InGroup(key: string): File -> bool
  {
    (f: File) => LayerOf(f.path) == World && GroupOf(f.path) == key
  }

  /** The world groups, in order of first appearance. */
  function GroupKeys(files: seq<File>): (r: seq<string>)
  {
    if files == [] then []
    else
      var most, f := GroupKeys(files[..|files| - 1]), files[|files| - 1];
      if LayerOf(f.path) == World && GroupOf(f.path) !in most then most + [GroupOf(f.path)] else most
  }

  function Size(files: seq<File>): nat
  {
    if files == [] then 0 else Size(files[..|files| - 1]) + |files[|files| - 1].data|
  }

  /** A file joins the open shard, the last one, unless that would take it past the target. */
  function Place(shards: seq<seq<File>>, f: File): seq<seq<File>>
  {
    if shards == [] || Size(shards[|shards| - 1]) + |f.data| > WORLD_TARGET_BYTES then shards + [[f]]
    else shards[..|shards| - 1] + [shards[|shards| - 1] + [f]]
  }

  function Shards(files: seq<File>): (r: seq<seq<File>>)
  {
    if files == [] then [] else Place(Shards(files[..|files| - 1]), files[|files| - 1])
  }

  function WorldShards(files: seq<File>, keys: seq<string>): (r: seq<seq<File>>)
  {
    if keys == [] then []
    else
      WorldShards(files, keys[..|keys| - 1]) + Shards(Sort(FileLess, Select(InGroup(keys[|keys| - 1]), files)))
  }

  datatype Layering = Layering(content: seq<File>, config: seq<File>, world: seq<seq<File>>)

  function Classified(files: seq<File>): Layering
  {
    Layering(Sort(FileLess, Select(InLayer(Content), files)),
             Sort(FileLess, Select(InLayer(Config), files)),
             WorldShards(files, Sort(StringLess, GroupKeys(files))))
  }

  // ---------------------------------------------------------------- shards

  function Flat(shards: seq<seq<File>>): seq<File>
  {
    if shards == [] then [] else Flat(shards[..|shards| - 1]) + shards[|shards| - 1]
  }

  lemma {:induction false} FlatConcat(a: seq<seq<File>>, b: seq<seq<File>>)
    ensures Flat(a + b) == Flat(a) + Flat(b)
    decreases |b|
  {
    if b == [] {
      assert a + b == a;
    } else {
      var most := b[..|b| - 1];
      FlatConcat(a, most);
      assert (a + b)[..|a + b| - 1] == a + most;
    }
  }

  /** A shard is not empty, and exceeds the target only if it is a single file. */
  predicate ShardFits(shard: seq<File>)
  {
    shard != [] && (Size(shard) <= WORLD_TARGET_BYTES || |shard| == 1)
  }

  ghost predicate AllFit(shards: seq<seq<File>>)
  {
    forall i :: 0 <= i < |shards| ==> ShardFits(shards[i])
  }

  /** The first file of `next` would not have fitted into `shard`. */
  predicate Full(shard: seq<File>, next: seq<File>)
  {
    next != [] && Size(shard) + |next[0].data| > WORLD_TARGET_BYTES
  }

  ghost predicate Greedy(shards: seq<seq<File>>)
  {
    forall i :: 0 < i < |shards| ==> Full(shards[i - 1], shards[i])
  }

  lemma PlaceOpens(shards: seq<seq<File>>, f: File)
    requires AllFit(shards) && Greedy(shards)
    requires shards == [] || Size(shards[|shards| - 1]) + |f.data| > WORLD_TARGET_BYTES
    ensures AllFit(shards + [[f]]) && Greedy(shards + [[f]]) && Flat(shards + [[f]]) == Flat(shards) + [f]
  {
    hide Size, Flat;
    var all := shards + [[f]];
    assert Flat(all) == Flat(shards) + [f] by {
      FlatLast(shards, [f]);
    }
  }

  lemma PlaceJoins(most: seq<seq<File>>, last: seq<File>, f: File)
    requires AllFit(most + [last]) && Greedy(most + [last])
    requires Size(last) + |f.data| <= WORLD_TARGET_BYTES
    ensures AllFit(most + [last + [f]]) && Greedy(most + [last + [f]])
    ensures Flat(most + [last + [f]]) == Flat(most + [last]) + [f]
  {
    hide Size, Flat;
    var was, all := most + [last], most + [last + [f]];
    FlatLast(most, last);
    FlatLast(most, last + [f]);
    SizeAppend(last, f);
    assert ShardFits(was[|most|]);
    forall i | 0 < i < |all| ensures Full(all[i - 1], all[i]) {
      assert Full(was[i - 1], was[i]);
    }
    forall i | 0 <= i < |all| ensures ShardFits(all[i]) {
      assert ShardFits(was[i]);
    }
  }

  lemma FlatLast(most: seq<seq<File>>, last: seq<File>)
    ensures Flat(most + [last]) == Flat(most) + last
  {
    assert (most + [last])[..|most|] == most;
  }

  /** Sharding keeps every file in order, and every shard as full as the next file allows. */
  lemma {:induction false} ShardsExact(files: seq<File>)
    ensures Flat(Shards(files)) == files
    ensures AllFit(Shards(files)) && Greedy(Shards(files))
    ensures Shards(files) == [] <==> files == []
  {
    hide Size, Flat, AllFit, Greedy;
    if files == [] {
      NothingSharded();
    } else {
      var rest, f := files[..|files| - 1], files[|files| - 1];
      var most := Shards(rest);
      ShardsExact(rest);
      assert files == rest + [f];
      if most == [] || Size(most[|most| - 1]) + |f.data| > WORLD_TARGET_BYTES {
        PlaceOpens(most, f);
      } else {
        assert most == most[..|most| - 1] + [most[|most| - 1]];
        PlaceJoins(most[..|most| - 1], most[|most| - 1], f);
      }
    }
  }

  lemma NothingSharded()
    ensures Flat([]) == [] && AllFit([]) && Greedy([])
  {
  }

  lemma SizeAppend(files: seq<File>, f: File)
    ensures Size(files + [f]) == Size(files) + |f.data|
  {
    assert (files + [f])[..|files|] == files;
  }

  // ---------------------------------------------------------------- a partition

  lemma {:induction false} SelectCount(p: File -> bool, files: seq<File>, f: File)
    ensures multiset(Select(p, files))[f] == if p(f) then multiset(files)[f] else 0
  {
    if files != [] {
      SelectCount(p, files[..|files| - 1], f);
      assert files == files[..|files| - 1] + [files[|files| - 1]];
    }
  }

  lemma {:induction false} KeyListed(files: seq<File>, f: File)
    requires f in files && LayerOf(f.path) == World
    ensures GroupOf(f.path) in GroupKeys(files)
  {
    var most := files[..|files| - 1];
    if f in most {
      KeyListed(most, f);
    } else {
      assert f == files[|files| - 1];
    }
  }

  lemma {:induction false} KeyFromFile(files: seq<File>, key: string)
    requires key in GroupKeys(files)
    ensures exists f :: f in files && LayerOf(f.path) == World && GroupOf(f.path) == key
  {
    var most, last := files[..|files| - 1], files[|files| - 1];
    if key in GroupKeys(most) {
      KeyFromFile(most, key);
      var f :| f in most && LayerOf(f.path) == World && GroupOf(f.path) == key;
      assert f in files;
    } else {
      assert last in files;
    }
  }

  ghost predicate DistinctKeys(keys: seq<string>)
  {
    forall i, j :: 0 <= i < |keys| && 0 <= j < |keys| && i != j ==> keys[i] != keys[j]
  }

  lemma {:induction false} KeysDistinct(files: seq<File>)
    ensures DistinctKeys(GroupKeys(files))
  {
    if files != [] {
      KeysDistinct(files[..|files| - 1]);
    }
  }

  /** How often a file occurs in the world shards of distinct groups. */
  lemma {:induction false} WorldCount(files: seq<File>, keys: seq<string>, f: File)
    requires DistinctKeys(keys)
    ensures multiset(Flat(WorldShards(files, keys)))[f] ==
      if LayerOf(f.path) == World && GroupOf(f.path) in keys then multiset(files)[f] else 0
  {
    hide LayerOf, GroupOf, Shards, Flat, Sort, Select;
    if keys == [] {
      NothingSharded();
      assert WorldShards(files, keys) == [];
    } else {
      var most, key := keys[..|keys| - 1], keys[|keys| - 1];
      var group := Sort(FileLess, Select(InGroup(key), files));
      WorldCount(files, most, f);
      ShardsExact(group);
      FlatConcat(WorldShards(files, most), Shards(group));
      SelectCount(InGroup(key), files, f);
      assert key !in most;
      assert GroupOf(f.path) in keys <==> GroupOf(f.path) in most || GroupOf(f.path) == key by {
        assert keys == most + [key];
      }
    }
  }

  lemma SortedKeys(files: seq<File>)
    ensures var keys := Sort(StringLess, GroupKeys(files));
      && DistinctKeys(keys) && Sorted(StringLess, keys) && forall k :: k in keys <==> k in GroupKeys(files)
  {
    hide StringLess, Sort, GroupKeys;
    var list := GroupKeys(files);
    var keys := Sort(StringLess, list);
    StringOrder();
    KeysDistinct(files);
    SortSorted(StringLess, list);
    forall i, j | 0 <= i < |keys| && 0 <= j < |keys| && i != j ensures keys[i] != keys[j] {
      assert !StringLess(keys[i], keys[i]);
      assert StringLess(keys[i], keys[j]) || StringLess(keys[j], keys[i]);
    }
    assert forall k :: k in keys <==> k in multiset(keys);
    assert forall k :: k in list <==> k in multiset(list);
  }

  /** Every file lands in exactly one place. */
  lemma ClassifiedPartitions(files: seq<File>)
    ensures var l := Classified(files);
      multiset(l.content) + multiset(l.config) + multiset(Flat(l.world)) == multiset(files)
  {
    hide LayerOf, GroupOf, Sort, Shards;
    var l := Classified(files);
    var keys := Sort(StringLess, GroupKeys(files));
    SortedKeys(files);
    forall f: File
      ensures multiset(l.content)[f] + multiset(l.config)[f] + multiset(Flat(l.world))[f] == multiset(files)[f]
    {
      SelectCount(InLayer(Content), files, f);
      SelectCount(InLayer(Config), files, f);
      WorldCount(files, keys, f);
      if f in files && LayerOf(f.path) == World {
        KeyListed(files, f);
      }
    }
  }

  /** Content files are content, config files config, and world files world, by path. */
  lemma ClassifiedByPath(files: seq<File>, f: File)
    ensures f in Classified(files).content <==> f in files && IsContentPath(f.path)
    ensures f in Classified(files).config <==> f in files && IsConfigPath(f.path)
    ensures f in Flat(Classified(files).world) <==> f in files && IsWorldPath(f.path)
  {
    hide LayerOf, GroupOf, Sort, Shards, IsContentPath, IsConfigPath, IsWorldPath;
    var l := Classified(files);
    var keys := Sort(StringLess, GroupKeys(files));
    SortedKeys(files);
    LayersAgree(f.path);
    SelectCount(InLayer(Content), files, f);
    SelectCount(InLayer(Config), files, f);
    WorldCount(files, keys, f);
    if f in files && LayerOf(f.path) == World {
      KeyListed(files, f);
    }
    assert f in l.content <==> multiset(l.content)[f] > 0;
    assert f in l.config <==> multiset(l.config)[f] > 0;
    assert f in Flat(l.world) <==> multiset(Flat(l.world))[f] > 0;
    assert f in files <==> multiset(files)[f] > 0;
  }

  // ---------------------------------------------------------------- the shards of the whole world

  /** Not empty, and all of one group. */
  ghost predicate OfGroup(shard: seq<File>, key: string)
  {
    shard != [] && forall f :: f in shard ==> GroupOf(f.path) == key
  }

  lemma {:induction false} InFlat(shards: seq<seq<File>>, i: nat, f: File)
    requires i < |shards| && f in shards[i]
    ensures f in Flat(shards)
  {
    if i < |shards| - 1 {
      InFlat(shards[..|shards| - 1], i, f);
    }
  }

  lemma GroupShards(files: seq<File>, key: string, i: nat)
    requires i < |Shards(Sort(FileLess, Select(InGroup(key), files)))|
    ensures OfGroup(Shards(Sort(FileLess, Select(InGroup(key), files)))[i], key)
  {
    hide Shards, Sort, Flat, Select, GroupOf;
    var group: seq<File> := Sort(FileLess, Select(InGroup(key), files));
    var shards: seq<seq<File>> := Shards(group);
    ShardsExact(group);
    forall f: File | f in shards[i] ensures GroupOf(f.path) == key {
      InFlat(shards, i, f);
      SelectCount(InGroup(key), files, f);
      assert f in multiset(group);
    }
    assert ShardFits(shards[i]);
  }

  /** Two consecutive shards are of different groups, or the first is as full as the next file allows. */
  predicate Paced(shard: seq<File>, next: seq<File>)
    requires shard != [] && next != []
  {
    GroupOf(shard[0].path) != GroupOf(next[0].path) || Full(shard, next)
  }

  ghost predicate AllPaced(shards: seq<seq<File>>)
  {
    && AllFit(shards)
    && forall i :: 0 < i < |shards| ==> Paced(shards[i - 1], shards[i])
  }

  lemma {:induction false} WorldPaced(files: seq<File>, keys: seq<string>)
    requires DistinctKeys(keys)
    ensures AllPaced(WorldShards(files, keys))
    ensures forall i :: 0 <= i < |WorldShards(files, keys)| ==> GroupOf(WorldShards(files, keys)[i][0].path) in keys
  {
    hide Shards, Sort, Select, GroupOf, ShardFits, Full, InGroup, FileLess;
    if keys != [] {
      var most, key := keys[..|keys| - 1], keys[|keys| - 1];
      var before, group := WorldShards(files, most), Sort(FileLess, Select(InGroup(key), files));
      var shards: seq<seq<File>> := Shards(group);
      WorldPaced(files, most);
      ShardsExact(group);
      forall i | 0 <= i < |shards| ensures shards[i] != [] && GroupOf(shards[i][0].path) == key {
        GroupShards(files, key, i);
      }
      assert key !in most && keys == most + [key];
      PacedJoin(before, shards, most, key);
    } else {
      assert WorldShards(files, keys) == [];
    }
  }

  lemma PacedJoin(before: seq<seq<File>>, shards: seq<seq<File>>, keys: seq<string>, key: string)
    requires AllPaced(before) && AllFit(shards) && Greedy(shards) && key !in keys
    requires forall i :: 0 <= i < |before| ==> GroupOf(before[i][0].path) in keys
    requires forall i :: 0 <= i < |shards| ==> GroupOf(shards[i][0].path) == key
    ensures AllPaced(before + shards)
    ensures forall i :: 0 <= i < |before + shards| ==> GroupOf((before + shards)[i][0].path) in keys + [key]
  {
    hide GroupOf, Full, Size;
    var all := before + shards;
    forall i | 0 < i < |all| ensures Paced(all[i - 1], all[i]) {
      if i < |before| {
        assert Paced(before[i - 1], before[i]);
      } else if i > |before| {
        assert Full(shards[i - 1 - |before|], shards[i - |before|]);
      } else {
        assert GroupOf(before[i - 1][0].path) in keys && GroupOf(shards[0][0].path) == key;
      }
    }
  }

  /**
   Every shard of the world holds files of one group, fits the target unless it is a single file, and is as
   full as the next file of its group allows.
   */
  lemma ClassifiedPaced(files: seq<File>)
    ensures AllPaced(Classified(files).world)
  {
    hide Sort, GroupKeys, WorldShards, AllPaced;
    SortedKeys(files);
    WorldPaced(files, Sort(StringLess, GroupKeys(files)));
  }

  // ---------------------------------------------------------------- order

  lemma SelectedSorted(p: File -> bool, files: seq<File>)
    requires DistinctPaths(files)
    ensures Sorted(FileLess, Sort(FileLess, Select(p, files)))
  {
    hide FileLess, Sort;
    SelectDistinct(p, files);
    FileOrder(Select(p, files));
    SortSorted(FileLess, Select(p, files));
  }

  lemma {:induction false} ShardOfSorted(files: seq<File>, i: nat)
    requires Sorted(FileLess, files) && i < |Shards(files)|
    ensures Sorted(FileLess, Shards(files)[i])
  {
    hide FileLess, Shards, Flat;
    ShardsExact(files);
    var k := PartOfFlat(Shards(files), i);
    var shard := Shards(files)[i];
    assert files[k..k + |shard|] == shard;
    forall a, b | 0 <= a < b < |shard| ensures FileLess(shard[a], shard[b]) {
      assert shard[a] == files[k + a] && shard[b] == files[k + b];
    }
  }

  lemma {:induction false} PartOfFlat(shards: seq<seq<File>>, i: nat) returns (k: nat)
    requires i < |shards|
    ensures k + |shards[i]| <= |Flat(shards)| && Flat(shards)[k..k + |shards[i]|] == shards[i]
  {
    var n := |shards| - 1;
    if i == n {
      k := |Flat(shards[..n])|;
    } else {
      k := PartOfFlat(shards[..n], i);
      assert Flat(shards)[k..k + |shards[i]|] == Flat(shards[..n])[k..k + |shards[i]|];
    }
  }

  ghost predicate AllSorted(shards: seq<seq<File>>)
  {
    forall i :: 0 <= i < |shards| ==> Sorted(FileLess, shards[i])
  }

  lemma {:induction false} WorldSorted(files: seq<File>, keys: seq<string>)
    requires DistinctPaths(files)
    ensures AllSorted(WorldShards(files, keys))
  {
    hide FileLess, Shards, Sort, Select, DistinctPaths;
    if keys != [] {
      var most, key := keys[..|keys| - 1], keys[|keys| - 1];
      WorldSorted(files, most);
      var group := Sort(FileLess, Select(InGroup(key), files));
      SelectedSorted(InGroup(key), files);
      forall i | 0 <= i < |Shards(group)| ensures Sorted(FileLess, Shards(group)[i]) {
        ShardOfSorted(group, i);
      }
    }
  }

  ghost predicate PathsAscend(files: seq<File>)
  {
    forall i, j :: 0 <= i < j < |files| ==> StringLess(files[i].path, files[j].path)
  }

  /** Content, config and every shard list their files in the order of their paths. */
  lemma ClassifiedSorted(files: seq<File>)
    requires DistinctPaths(files)
    ensures var l := Classified(files);
      PathsAscend(l.content) && PathsAscend(l.config) && forall i :: 0 <= i < |l.world| ==> PathsAscend(l.world[i])
  {
    hide StringLess, Sort, Select, WorldShards, DistinctPaths;
    SelectedSorted(InLayer(Content), files);
    SelectedSorted(InLayer(Config), files);
    WorldSorted(files, Sort(StringLess, GroupKeys(files)));
  }

  ghost predicate KeysAscend(shards: seq<seq<File>>)
  {
    forall i, j :: 0 <= i < j < |shards| && shards[i] != [] && shards[j] != [] ==>
      var a, b := GroupOf(shards[i][0].path), GroupOf(shards[j][0].path); a == b || StringLess(a, b)
  }

  lemma {:induction false} WorldAscends(files: seq<File>, keys: seq<string>)
    requires Sorted(StringLess, keys)
    ensures KeysAscend(WorldShards(files, keys))
  {
    hide StringLess, Shards, Sort, Select, GroupOf;
    if keys != [] {
      var most, key := keys[..|keys| - 1], keys[|keys| - 1];
      WorldAscends(files, most);
      WorldOfGroups(files, most);
      var before: seq<seq<File>> := WorldShards(files, most);
      var shards: seq<seq<File>> := Shards(Sort(FileLess, Select(InGroup(key), files)));
      forall i | 0 <= i < |shards| ensures shards[i] != [] && GroupOf(shards[i][0].path) == key {
        GroupShards(files, key, i);
        assert shards[i][0] in shards[i];
      }
      forall i | 0 <= i < |before| ensures StringLess(GroupOf(before[i][0].path), key) {
        var x := GroupOf(before[i][0].path);
        var n :| 0 <= n < |most| && most[n] == x;
        assert keys[n] == x && keys[|keys| - 1] == key;
      }
    }
  }

  /** Shards of different groups come in the order of their groups. */
  lemma ShardsAscend(files: seq<File>)
    ensures KeysAscend(Classified(files).world)
  {
    hide Sort, GroupKeys, WorldShards, KeysAscend;
    SortedKeys(files);
    WorldAscends(files, Sort(StringLess, GroupKeys(files)));
  }

  // ---------------------------------------------------------------- shards by path

  /** The first two parts of a path, or its one part. */
  function FirstTwo(path: Path): seq<string>
  {
    var parts := Split(path, '/'); if |parts| > 1 then parts[..2] else parts[..1]
  }

  lemma {:induction false} PartsHaveNoSlash(path: Path, i: nat)
    requires i < |Split(path, '/')|
    ensures '/' !in Split(path, '/')[i]
  {
    if path != [] {
      if path[0] == '/' {
        if i > 0 {
          PartsHaveNoSlash(path[1..], i - 1);
        }
      } else {
        PartsHaveNoSlash(path[1..], i);
      }
    }
  }

  lemma GroupSplits(path: Path)
    ensures Split(GroupOf(path), '/') == FirstTwo(path)
  {
    hide Split;
    var parts := Split(path, '/');
    PartsHaveNoSlash(path, 0);
    SinglePart(parts[0], '/');
    if |parts| > 1 {
      PartsHaveNoSlash(path, 1);
      SinglePart(parts[1], '/');
      SplitJoined(parts[0], '/', parts[1]);
      assert parts[0] + "/" + parts[1] == parts[0] + ['/'] + parts[1];
    }
  }

  /** Two files are of one group exactly if their paths agree in the first two parts. */
  lemma GroupsByParts(p: Path, q: Path)
    ensures GroupOf(p) == GroupOf(q) <==> FirstTwo(p) == FirstTwo(q)
  {
    GroupSplits(p);
    GroupSplits(q);
    if FirstTwo(p) == FirstTwo(q) {
      assert Split(p, '/')[0] == FirstTwo(p)[0] == FirstTwo(q)[0] == Split(q, '/')[0];
      assert |FirstTwo(p)| == 2 ==> Split(p, '/')[1] == FirstTwo(p)[1] == FirstTwo(q)[1] == Split(q, '/')[1];
    }
  }

  ghost predicate AllOfGroup(shards: seq<seq<File>>, keys: seq<string>)
  {
    forall i :: 0 <= i < |shards| ==> shards[i] != [] && GroupOf(shards[i][0].path) in keys && OfGroup(shards[i], GroupOf(shards[i][0].path))
  }

  lemma {:induction false} WorldOfGroups(files: seq<File>, keys: seq<string>)
    ensures AllOfGroup(WorldShards(files, keys), keys)
  {
    hide Shards, Sort, Select, GroupOf;
    if keys != [] {
      var most, key := keys[..|keys| - 1], keys[|keys| - 1];
      WorldOfGroups(files, most);
      var before, shards := WorldShards(files, most), Shards(Sort(FileLess, Select(InGroup(key), files)));
      assert keys == most + [key] && WorldShards(files, keys) == before + shards;
      forall i | 0 <= i < |shards| ensures shards[i] != [] && OfGroup(shards[i], key) && GroupOf(shards[i][0].path) == key {
        GroupShards(files, key, i);
        assert shards[i][0] in shards[i];
      }
    }
  }

  /** All files of a shard agree in the first two parts of their paths. */
  lemma ShardsAgree(files: seq<File>, i: nat, f: File, g: File)
    requires i < |Classified(files).world| && f in Classified(files).world[i] && g in Classified(files).world[i]
    ensures FirstTwo(f.path) == FirstTwo(g.path)
  {
    hide Sort, GroupKeys, WorldShards, GroupOf, FirstTwo;
    WorldOfGroups(files, Sort(StringLess, GroupKeys(files)));
    GroupsByParts(f.path, g.path);
  }

  /** Of two consecutive shards that agree in them, the first had no room for the first file of the second. */
  lemma ShardsFilled(files: seq<File>, i: nat)
    requires 0 < i < |Classified(files).world|
    ensures var a, b := Classified(files).world[i - 1], Classified(files).world[i];
      a != [] && b != [] &&
      (FirstTwo(a[0].path) == FirstTwo(b[0].path) ==> Size(a) + |b[0].data| > 192 * 1024 * 1024)
  {
    hide Sort, GroupKeys, WorldShards, GroupOf, FirstTwo, Size;
    ClassifiedPaced(files);
    var world := Classified(files).world;
    assert ShardFits(world[i - 1]) && ShardFits(world[i]) && Paced(world[i - 1], world[i]);
    GroupsByParts(world[i - 1][0].path, world[i][0].path);
  }

  lemma {:induction false} SizePart(shards: seq<seq<File>>)
    ensures Size(Flat(shards)) == Sizes(shards)
  {
    hide Size;
    if shards == [] {
      assert Flat(shards) == [] && Size([]) == 0 by { NoSize(); }
    } else {
      var most, last := shards[..|shards| - 1], shards[|shards| - 1];
      SizePart(most);
      SizeConcat(Flat(most), last);
    }
  }

  lemma NoSize()
    ensures Size([]) == 0
  {
  }

  function Sizes(shards: seq<seq<File>>): nat
  {
    if shards == [] then 0 else Sizes(shards[..|shards| - 1]) + Size(shards[|shards| - 1])
  }

  lemma {:induction false} SizeConcat(a: seq<File>, b: seq<File>)
    ensures Size(a + b) == Size(a) + Size(b)
    decreases |b|
  {
    if b == [] {
      assert a + b == a;
    } else {
      assert (a + b)[..|a + b| - 1] == a + b[..|b| - 1];
      SizeConcat(a, b[..|b| - 1]);
    }
  }

  /** Files that fit together are put into one shard. */
  lemma OneShard(files: seq<File>)
    requires files != [] && Size(files) <= WORLD_TARGET_BYTES
    ensures Shards(files) == [files]
  {
    hide Size, Shards, Flat;
    var shards: seq<seq<File>> := Shards(files);
    ShardsExact(files);
    if |shards| > 1 {
      assert shards == [shards[0], shards[1]] + shards[2..];
      SizePart(shards);
      assert Full(shards[0], shards[1]);
      TwoShardsWeigh(shards);
    } else {
      NothingSharded();
      var none: seq<seq<File>> := [];
      FlatLast(none, shards[0]);
      assert shards == none + [shards[0]];
      assert files == shards[0];
    }
  }

  lemma {:induction false} TwoShardsWeigh(shards: seq<seq<File>>)
    requires |shards| >= 2 && shards[1] != []
    ensures Sizes(shards) >= Size(shards[0]) + |shards[1][0].data|
  {
    if |shards| == 2 {
      assert shards[..1] == [shards[0]] && [shards[0]][..0] == [];
      assert Sizes([]) == 0 && Sizes([shards[0]]) == Size(shards[0]);
      FirstWeighs(shards[1]);
    } else {
      TwoShardsWeigh(shards[..|shards| - 1]);
    }
  }

  lemma {:induction false} FirstWeighs(files: seq<File>)
    requires files != []
    ensures Size(files) >= |files[0].data|
  {
    if |files| > 1 {
      FirstWeighs(files[..|files| - 1]);
    }
  }

  lemma {:induction false} GroupIsPlaced(files: seq<File>, keys: seq<string>, key: string) returns (i: nat)
    requires key in keys
    ensures var shards := Shards(Sort(FileLess, Select(InGroup(key), files)));
      i + |shards| <= |WorldShards(files, keys)| && WorldShards(files, keys)[i..i + |shards|] == shards
  {
    hide Shards, Sort, Select;
    var most, last := keys[..|keys| - 1], keys[|keys| - 1];
    var shards := Shards(Sort(FileLess, Select(InGroup(key), files)));
    if key in most {
      i := GroupIsPlaced(files, most, key);
      assert WorldShards(files, keys)[i..i + |shards|] == WorldShards(files, most)[i..i + |shards|];
    } else {
      assert key == last;
      i := |WorldShards(files, most)|;
    }
  }

  /** The world files that agree with a path in its first two parts. */
  function Agreeing(path: Path): File -> bool
  {
    (f: File) => LayerOf(f.path) == World && FirstTwo(f.path) == FirstTwo(path)
  }

  lemma {:induction false} SameSelection(p: File -> bool, q: File -> bool, files: seq<File>)
    requires forall f :: f in files ==> p(f) == q(f)
    ensures Select(p, files) == Select(q, files)
  {
    if files != [] {
      SameSelection(p, q, files[..|files| - 1]);
    }
  }

  /** All world files that agree in the first two parts of their paths are in one shard if together they fit it. */
  lemma FittingGroupIsOneShard(files: seq<File>, f: File) returns (i: nat)
    requires f in files && IsWorldPath(f.path) && Size(Select(Agreeing(f.path), files)) <= 192 * 1024 * 1024
    ensures i < |Classified(files).world|
    ensures forall g :: g in files && IsWorldPath(g.path) && FirstTwo(g.path) == FirstTwo(f.path) ==> g in Classified(files).world[i]
  {
    hide Sort, GroupKeys, WorldShards, GroupOf, FirstTwo, Size, Shards, Select, LayerOf, IsWorldPath;
    var key := GroupOf(f.path);
    LayersAgree(f.path);
    KeyListed(files, f);
    SortedKeys(files);
    forall g | g in files ensures InGroup(key)(g) == Agreeing(f.path)(g) {
      GroupsByParts(g.path, f.path);
    }
    SameSelection(InGroup(key), Agreeing(f.path), files);
    var chosen := Select(InGroup(key), files);
    var group := Sort(FileLess, chosen);
    i := GroupIsPlaced(files, Sort(StringLess, GroupKeys(files)), key);
    SizeOfSorted(chosen);
    SelectCount(InGroup(key), files, f);
    assert f in multiset(group);
    OneShard(group);
    var world := Classified(files).world;
    assert world[i..i + 1] == [group];
    assert world[i] == world[i..i + 1][0] == group;
    forall g | g in files && IsWorldPath(g.path) && FirstTwo(g.path) == FirstTwo(f.path) ensures g in world[i] {
      LayersAgree(g.path);
      GroupsByParts(g.path, f.path);
      SelectCount(InGroup(key), files, g);
      assert g in multiset(group);
    }
  }

  lemma {:induction false} SizeByElements(a: seq<File>, b: seq<File>)
    requires multiset(a) == multiset(b)
    ensures Size(a) == Size(b)
  {
    assert |a| == |multiset(a)| == |multiset(b)| == |b|;
    if a != [] {
      var x := a[|a| - 1];
      assert x in multiset(b);
      var k :| 0 <= k < |b| && b[k] == x;
      var rest := b[..k] + b[k + 1..];
      assert b == b[..k] + [x] + b[k + 1..];
      assert a == a[..|a| - 1] + [x];
      assert multiset(rest) == multiset(b) - multiset{x};
      assert multiset(a[..|a| - 1]) == multiset(a) - multiset{x};
      SizeByElements(a[..|a| - 1], rest);
      SizeConcat(b[..k] + [x], b[k + 1..]);
      SizeAppend(b[..k], x);
      SizeConcat(b[..k], b[k + 1..]);
    }
  }

  lemma SizeOfSorted(files: seq<File>)
    ensures Size(Sort(FileLess, files)) == Size(files)
  {
    SizeByElements(Sort(FileLess, files), files);
  }

  // ---------------------------------------------------------------- independence of input order

  lemma {:induction false} SelectDistinct(p: File -> bool, files: seq<File>)
    requires DistinctPaths(files)
    ensures DistinctPaths(Select(p, files))
    ensures forall f :: f in Select(p, files) ==> f in files
  {
    if files != [] {
      var most, f := files[..|files| - 1], files[|files| - 1];
      SelectDistinct(p, most);
      var s := Select(p, most);
      forall i | 0 <= i < |s| ensures s[i].path != f.path {
        assert s[i] in most;
        var j :| 0 <= j < |most| && most[j] == s[i];
        assert files[j] == s[i];
      }
    }
  }

  lemma SelectCanonical(p: File -> bool, a: seq<File>, b: seq<File>)
    requires DistinctPaths(a) && DistinctPaths(b) && multiset(a) == multiset(b)
    ensures Sort(FileLess, Select(p, a)) == Sort(FileLess, Select(p, b))
  {
    hide FileLess, Sort;
    SelectDistinct(p, a);
    SelectDistinct(p, b);
    FileOrder(Select(p, a));
    FileOrder(Select(p, b));
    forall f: File ensures multiset(Select(p, a))[f] == multiset(Select(p, b))[f] {
      SelectCount(p, a, f);
      SelectCount(p, b, f);
    }
    SortCanonical(FileLess, Select(p, a), Select(p, b));
  }

  lemma KeysCanonical(a: seq<File>, b: seq<File>)
    requires multiset(a) == multiset(b)
    ensures Sort(StringLess, GroupKeys(a)) == Sort(StringLess, GroupKeys(b))
  {
    hide StringLess, Sort, GroupKeys, LayerOf, GroupOf;
    StringOrder();
    KeysDistinct(a);
    KeysDistinct(b);
    assert forall f :: f in a <==> f in b by {
      assert forall f :: f in a <==> f in multiset(a);
      assert forall f :: f in b <==> f in multiset(b);
    }
    forall k: string ensures multiset(GroupKeys(a))[k] == multiset(GroupKeys(b))[k] {
      KeyOnce(GroupKeys(a), k);
      KeyOnce(GroupKeys(b), k);
      if k in GroupKeys(a) {
        KeyFromFile(a, k);
        var f :| f in a && LayerOf(f.path) == World && GroupOf(f.path) == k;
        KeyListed(b, f);
      }
      if k in GroupKeys(b) {
        KeyFromFile(b, k);
        var f :| f in b && LayerOf(f.path) == World && GroupOf(f.path) == k;
        KeyListed(a, f);
      }
    }
    SortCanonical(StringLess, GroupKeys(a), GroupKeys(b));
  }

  lemma {:induction false} KeyOnce(keys: seq<string>, k: string)
    requires DistinctKeys(keys)
    ensures multiset(keys)[k] == if k in keys then 1 else 0
  {
    if keys != [] {
      var most := keys[..|keys| - 1];
      KeyOnce(most, k);
      assert keys == most + [keys[|keys| - 1]];
    }
  }

  lemma {:induction false} WorldCanonical(a: seq<File>, b: seq<File>, keys: seq<string>)
    requires DistinctPaths(a) && DistinctPaths(b) && multiset(a) == multiset(b)
    ensures WorldShards(a, keys) == WorldShards(b, keys)
  {
    hide Sort, Select, Shards, InGroup;
    if keys != [] {
      WorldCanonical(a, b, keys[..|keys| - 1]);
      SelectCanonical(InGroup(keys[|keys| - 1]), a, b);
    }
  }

  /** The same files in any order are classified into the very same layers and shards. */
  lemma ClassifiedCanonical(a: seq<File>, b: seq<File>)
    requires DistinctPaths(a) && DistinctPaths(b) && multiset(a) == multiset(b)
    ensures Classified(a) == Classified(b)
  {
    hide Sort, Select, WorldShards, GroupKeys;
    SelectCanonical(InLayer(Content), a, b);
    SelectCanonical(InLayer(Config), a, b);
    KeysCanonical(a, b);
    WorldCanonical(a, b, Sort(StringLess, GroupKeys(a)));
  }

  // ---------------------------------------------------------------- the loops of `classify`

  /** Files by group, as the map in the source holds them. */
  ghost predicate Grouped(groups: map<string, seq<File>>, files: seq<File>)
  {
    && (forall k :: k in groups <==> k in GroupKeys(files))
    && (forall k :: k in groups ==> groups[k] == Select(InGroup(k), files))
  }

  method Classify(files: seq<File>) returns (r: Layering)
    ensures r == Classified(files)
  {
    hide LayerOf, GroupOf, Sort, WorldShards, Grouped, Select, GroupKeys, InLayer, InGroup, Split;
    var content: seq<File>, config: seq<File> := [], [];
    var groups: map<string, seq<File>> := map[];
    NothingGrouped(files);
    for k := 0 to |files|
      invariant content == Select(InLayer(Content), files[..k]) && config == Select(InLayer(Config), files[..k])
      invariant Grouped(groups, files[..k])
    {
      var f := files[k];
      GroupOne(groups, files, k);
      SelectOne(InLayer(Content), files, k);
      SelectOne(InLayer(Config), files, k);
      LayerTests(f);
      match LayerOf(f.path) {
        case World =>
          var group := GroupOf(f.path);
          groups := groups[group := (if group in groups then groups[group] else []) + [f]];
        case Config => config := config + [f];
        case Content => content := content + [f];
      }
    }
    assert files[..|files|] == files;
    var keys := SortedGroupKeys(files, groups);
    var world: seq<seq<File>> := [];
    NoShards(files);
    for k := 0 to |keys|
      invariant world == WorldShards(files, keys[..k])
    {
      assert keys[k] in groups && groups[keys[k]] == Select(InGroup(keys[k]), files) by {
        GroupedAt(groups, files, keys[k]);
      }
      var shards := ShardGroup(Sort(FileLess, groups[keys[k]]));
      MoreShards(files, keys, k);
      world := world + shards;
    }
    assert keys[..|keys|] == keys;
    return Layering(Sort(FileLess, content), Sort(FileLess, config), world);
  }

  /** The keys of the map, in whatever order it yields them, and then sorted. */
  method SortedGroupKeys(ghost files: seq<File>, groups: map<string, seq<File>>) returns (keys: seq<string>)
    requires Grouped(groups, files)
    ensures keys == Sort(StringLess, GroupKeys(files))
    ensures forall i :: 0 <= i < |keys| ==> keys[i] in GroupKeys(files)
  {
    hide StringLess, Sort, GroupKeys, Select, InGroup;
    var list: seq<string> := [];
    var todo := groups.Keys;
    while todo != {}
      invariant todo <= groups.Keys && DistinctKeys(list)
      invariant forall k :: k in list <==> k in groups && k !in todo
      decreases |todo|
    {
      var k :| k in todo;
      todo := todo - {k};
      list := list + [k];
    }
    forall k: string ensures multiset(list)[k] == multiset(GroupKeys(files))[k] {
      KeysDistinct(files);
      KeyOnce(list, k);
      KeyOnce(GroupKeys(files), k);
    }
    StringOrder();
    KeysDistinct(files);
    SortCanonical(StringLess, list, GroupKeys(files));
    SortedKeys(files);
    keys := Sort(StringLess, list);
    assert forall i :: 0 <= i < |keys| ==> keys[i] in keys;
  }

  method ShardGroup(group: seq<File>) returns (r: seq<seq<File>>)
    ensures r == Shards(group)
  {
    hide Size, Shards;
    r := [];
    var shard: seq<File>, size: nat := [], 0;
    ShardsStep(group);
    for k := 0 to |group|
      invariant size == Size(shard) && Shards(group[..k]) == Closed(r, shard)
      invariant shard == [] ==> r == []
    {
      var f := group[k];
      ShardsStep(group[..k + 1]);
      assert group[..k + 1][..k] == group[..k];
      SizeAppend(shard, f);
      SizeAppend([], f);
      assert [] + [f] == [f];
      assert shard != [] ==> (r + [shard])[..|r|] == r;
      if shard != [] && size + |f.data| > WORLD_TARGET_BYTES {
        r := r + [shard];
        shard, size := [f], |f.data|;
      } else {
        shard, size := shard + [f], size + |f.data|;
      }
    }
    assert group[..|group|] == group;
    r := Closed(r, shard);
  }

  function Closed(shards: seq<seq<File>>, open: seq<File>): seq<seq<File>>
  {
    if open == [] then shards else shards + [open]
  }

  lemma ShardsStep(files: seq<File>)
    ensures Shards([]) == [] && Size([]) == 0
    ensures files != [] ==> Shards(files) == Place(Shards(files[..|files| - 1]), files[|files| - 1])
  {
  }

  lemma NothingGrouped(files: seq<File>)
    ensures Grouped(map[], files[..0]) && Select(InLayer(Content), files[..0]) == [] && Select(InLayer(Config), files[..0]) == []
  {
  }

  lemma SelectOne(p: File -> bool, files: seq<File>, k: nat)
    requires k < |files|
    ensures Select(p, files[..k + 1]) == Select(p, files[..k]) + if p(files[k]) then [files[k]] else []
  {
    assert files[..k + 1][..k] == files[..k];
  }

  lemma LayerTests(f: File)
    ensures InLayer(Content)(f) <==> LayerOf(f.path) == Content
    ensures InLayer(Config)(f) <==> LayerOf(f.path) == Config
  {
  }

  lemma GroupOne(groups: map<string, seq<File>>, files: seq<File>, k: nat)
    requires k < |files| && Grouped(groups, files[..k])
    ensures var f := files[k]; var group := GroupOf(f.path);
      Grouped(if LayerOf(f.path) == World then groups[group := (if group in groups then groups[group] else []) + [f]] else groups,
              files[..k + 1])
  {
    hide LayerOf, GroupOf;
    var f := files[k];
    assert files[..k + 1][..k] == files[..k];
    forall key: string
      ensures Select(InGroup(key), files[..k + 1]) == Select(InGroup(key), files[..k]) + if InGroup(key)(f) then [f] else []
    {
      SelectOne(InGroup(key), files, k);
    }
    if LayerOf(f.path) == World && GroupOf(f.path) !in groups {
      NoneInGroup(files[..k], GroupOf(f.path));
    }
  }

  lemma {:induction false} NoneInGroup(files: seq<File>, key: string)
    requires key !in GroupKeys(files)
    ensures Select(InGroup(key), files) == []
  {
    if files != [] {
      NoneInGroup(files[..|files| - 1], key);
    }
  }

  lemma GroupedAt(groups: map<string, seq<File>>, files: seq<File>, key: string)
    requires Grouped(groups, files) && key in GroupKeys(files)
    ensures key in groups && groups[key] == Select(InGroup(key), files)
  {
  }

  lemma NoShards(files: seq<File>)
    ensures WorldShards(files, []) == []
  {
  }

  lemma MoreShards(files: seq<File>, keys: seq<string>, k: nat)
    requires k < |keys|
    ensures WorldShards(files, keys[..k + 1]) ==
      WorldShards(files, keys[..k]) + Shards(Sort(FileLess, Select(InGroup(keys[k]), files)))
  {
    assert keys[..k + 1][..k] == keys[..k];
  }
}
