/**
 Restoring a workspace: download the archives of an accepted manifest in order and extract each one over what
 is there. The disk is a map from paths to file contents; a path cannot be a file and a directory at once.
 */
module Restores {
  import opened Bytes
  import opened Options
  import opened Layers
  import opened Keys
  import opened Text
  import opened Manifests
  import opened Drafts

  type Disk = map<Path, Bytes>
  type Store = map<string, Bytes>

  // ---------------------------------------------------------------- extracting one archive

  datatype Extraction = Extraction(disk: Disk, seen: set<Path>, expected: set<Path>, total: int, entries: nat)

  /** A file that would be its own directory. */
  predicate Clash(a: Path, b: Path)
  {
    a + "/" <= b || b + "/" <= a
  }

  /** Creating a file fails below another file, at a directory and at a file. */
  predicate Creatable(disk: Disk, path: Path)
  {
    path !in disk && forall p :: p in disk ==> !Clash(p, path)
  }

  function ExtractOne(x: Extraction, f: File, limit: int, overlay: bool): Result<Extraction>
  {
    if x.entries + 1 > MAX_ARCHIVE_ENTRIES || !ValidWorkspacePath(f.path) || |f.data| > limit || x.total + |f.data| > limit then Failed
    else if f.path !in x.expected then Failed
    else
      var over := f.path in x.seen && overlay && IsConfigPath(f.path);
      if f.path in x.seen && !over then Failed
      else
        var disk := if over then x.disk - {f.path} else x.disk;
        if !Creatable(disk, f.path) then Failed
        else Ok(Extraction(disk[f.path := f.data], x.seen + {f.path}, x.expected - {f.path}, x.total + |f.data|, x.entries + 1))
  }

  function ExtractAll(x: Extraction, files: seq<File>, limit: int, overlay: bool): Result<Extraction>
  {
    if files == [] then Ok(x)
    else
      var most :- ExtractAll(x, files[..|files| - 1], limit, overlay);
      ExtractOne(most, files[|files| - 1], limit, overlay)
  }

  datatype Progress = Progress(disk: Disk, seen: set<Path>, extracted: int)

  function ExtractArchive(lib: Library, data: Bytes, b: Blob, p: Progress, limit: int, overlay: bool): Result<Progress>
  {
    if !ValidPaths(b.paths) || lib.decode(data).None? then Failed
    else
      var x :- ExtractAll(Extraction(p.disk, p.seen, PathSet(b.paths), 0, 0), lib.decode(data).value, limit, overlay);
      if x.expected != {} || x.total != b.logicalSize then Failed
      else Ok(Progress(x.disk, x.seen, p.extracted + x.total))
  }

  // ---------------------------------------------------------------- restoring a manifest

  function RestoreOne(lib: Library, store: Store, m: Manifest, c: Command, p: Progress, b: Blob): Result<Progress>
  {
    if b.key !in store || |store[b.key]| != b.compressedSize || lib.sha256(store[b.key]) != b.sha256 then Failed
    else
      var overlay := m.config.Some? && b.key == m.config.value.key;
      var next :- ExtractArchive(lib, store[b.key], b, p, WorkspaceLimit(c), overlay);
      if next.extracted > WorkspaceLimit(c) then Failed else Ok(next)
  }

  function RestoreAll(lib: Library, store: Store, m: Manifest, c: Command, ds: seq<Blob>): Result<Progress>
  {
    if ds == [] then Ok(Progress(map[], {}, 0))
    else
      var most :- RestoreAll(lib, store, m, c, ds[..|ds| - 1]);
      RestoreOne(lib, store, m, c, most, ds[|ds| - 1])
  }

  /** What a restore leaves on disk. */
  function Restore(lib: Library, store: Store, m: Manifest, c: Command): Result<Disk>
  {
    var p :- RestoreAll(lib, store, m, c, Descriptors(m));
    if p.extracted != m.logicalSize then Failed else Ok(p.disk)
  }

  // ---------------------------------------------------------------- disks

  function DiskOf(files: seq<File>): Disk
  {
    if files == [] then map[] else DiskOf(files[..|files| - 1])[files[|files| - 1].path := files[|files| - 1].data]
  }

  function FilePaths(files: seq<File>): set<Path>
  {
    set f | f in files :: f.path
  }

  /** No file lies below another one. */
  ghost predicate Tree(paths: set<Path>)
  {
    forall p, q :: p in paths && q in paths ==> !Clash(p, q)
  }

  lemma {:induction false} DiskPaths(files: seq<File>)
    ensures DiskOf(files).Keys == FilePaths(files)
  {
    if files != [] {
      var most, last := files[..|files| - 1], files[|files| - 1];
      DiskPaths(most);
      assert files == most + [last];
      assert FilePaths(files) == FilePaths(most) + {last.path};
    }
  }

  lemma {:induction false} DiskConcat(a: seq<File>, b: seq<File>)
    ensures DiskOf(a + b) == DiskOf(a) + DiskOf(b)
    decreases |b|
  {
    if b == [] {
      assert a + b == a;
    } else {
      var most := b[..|b| - 1];
      DiskConcat(a, most);
      assert (a + b)[..|a + b| - 1] == a + most;
    }
  }

  lemma {:induction false} DiskHolds(files: seq<File>, f: File)
    requires DistinctPaths(files) && f in files
    ensures f.path in DiskOf(files) && DiskOf(files)[f.path] == f.data
  {
    var most, last := files[..|files| - 1], files[|files| - 1];
    if f == last {
    } else {
      assert f in most;
      var i :| 0 <= i < |most| && most[i] == f;
      assert files[i].path != last.path;
      DiskHolds(most, f);
    }
  }

  lemma ClashSelf(p: Path)
    ensures !Clash(p, p)
  {
  }

  /** A path can be created exactly if the tree stays a tree. */
  lemma CreatableExact(disk: Disk, path: Path)
    requires Tree(disk.Keys)
    ensures Creatable(disk - {path}, path) <==> Tree(disk.Keys + {path})
  {
    hide Clash;
    ClashSelf(path);
    var rest := disk - {path};
    if Creatable(rest, path) {
      forall p, q | p in disk.Keys + {path} && q in disk.Keys + {path} ensures !Clash(p, q) {
        ClashSymmetric(p, q);
        if p == path && q != path {
          assert q in rest;
        } else if p != path && q == path {
          assert p in rest;
        }
      }
    }
    if Tree(disk.Keys + {path}) {
      forall p | p in rest ensures !Clash(p, path) {
        assert p in disk.Keys + {path};
      }
    }
  }

  lemma ClashSymmetric(p: Path, q: Path)
    ensures Clash(p, q) <==> Clash(q, p)
  {
  }

  // ---------------------------------------------------------------- one archive, exactly

  /** What an accepted manifest gives about an archive that is about to be extracted. */
  ghost predicate Ready(x: Extraction, files: seq<File>, limit: int, overlay: bool)
  {
    && x.seen == x.disk.Keys && Tree(x.disk.Keys) && x.total >= 0
    && x.entries + |files| <= MAX_ARCHIVE_ENTRIES && x.total + Size(files) <= limit
    && DistinctPaths(files)
    && forall f :: f in files ==>
         && ValidWorkspacePath(f.path) && f.path in x.expected
         && (f.path in x.seen ==> overlay && IsConfigPath(f.path))
  }

  ghost predicate Extracted(x: Extraction, files: seq<File>, y: Extraction)
  {
    && y.disk == x.disk + DiskOf(files) && y.seen == y.disk.Keys && Tree(y.disk.Keys)
    && y.expected == x.expected - FilePaths(files)
    && y.total == x.total + Size(files) && y.entries == x.entries + |files|
  }

  lemma {:induction false} SizeBound(files: seq<File>, k: nat)
    requires k <= |files|
    ensures Size(files[..k]) <= Size(files)
    ensures k < |files| ==> Size(files[..k]) + |files[k].data| <= Size(files)
  {
    if k < |files| {
      var most := files[..|files| - 1];
      SizeBound(most, if k < |most| then k else |most|);
      assert files[..k] == most[..k];
    } else {
      assert files[..k] == files;
    }
  }

  lemma ExtractOneExact(x: Extraction, f: File, limit: int, overlay: bool)
    requires x.seen == x.disk.Keys && Tree(x.disk.Keys)
    requires x.entries + 1 <= MAX_ARCHIVE_ENTRIES && 0 <= x.total && x.total + |f.data| <= limit
    requires ValidWorkspacePath(f.path) && f.path in x.expected && (f.path in x.seen ==> overlay && IsConfigPath(f.path))
    ensures ExtractOne(x, f, limit, overlay).Ok? <==> Tree(x.disk.Keys + {f.path})
    ensures Tree(x.disk.Keys + {f.path}) ==>
      ExtractOne(x, f, limit, overlay) ==
        Ok(Extraction(x.disk[f.path := f.data], x.seen + {f.path}, x.expected - {f.path}, x.total + |f.data|, x.entries + 1))
  {
    hide ValidWorkspacePath, IsConfigPath, Creatable, Tree;
    CreatableExact(x.disk, f.path);
    if f.path in x.seen {
      assert (x.disk - {f.path})[f.path := f.data] == x.disk[f.path := f.data];
    } else {
      assert x.disk - {f.path} == x.disk;
    }
  }

  lemma TreeSubset(small: set<Path>, large: set<Path>)
    requires small <= large && Tree(large)
    ensures Tree(small)
  {
    hide Clash;
  }

  lemma ExtractedStep(x: Extraction, files: seq<File>, y: Extraction, limit: int, overlay: bool)
    requires Ready(x, files, limit, overlay) && files != [] && Extracted(x, files[..|files| - 1], y)
    ensures var z := ExtractOne(y, files[|files| - 1], limit, overlay);
      && (z.Ok? <==> Tree(x.disk.Keys + FilePaths(files)))
      && (z.Ok? ==> Extracted(x, files, z.value))
  {
    hide Tree, ValidWorkspacePath, IsConfigPath, ExtractOne, Ready, FilePaths, Size, DiskOf;
    var most, f := files[..|files| - 1], files[|files| - 1];
    ReadyLast(x, files, y, limit, overlay);
    ExtractOneExact(y, f, limit, overlay);
    OneMore(files);
    DiskPaths(most);
    assert y.disk.Keys + {f.path} == x.disk.Keys + FilePaths(files);
    assert y.disk[f.path := f.data].Keys == y.disk.Keys + {f.path};
    assert (x.disk + DiskOf(most))[f.path := f.data] == x.disk + DiskOf(files);
    assert x.expected - FilePaths(most) - {f.path} == x.expected - FilePaths(files);
  }

  lemma OneMore(files: seq<File>)
    requires files != []
    ensures var most, f := files[..|files| - 1], files[|files| - 1];
      && FilePaths(files) == FilePaths(most) + {f.path} && Size(files) == Size(most) + |f.data|
      && DiskOf(files) == DiskOf(most)[f.path := f.data]
  {
    assert files == files[..|files| - 1] + [files[|files| - 1]];
  }

  /** Extraction succeeds exactly if files and directories do not collide, and then lays the files over the disk. */
  lemma {:induction false} ExtractAllExact(x: Extraction, files: seq<File>, limit: int, overlay: bool)
    requires Ready(x, files, limit, overlay)
    ensures ExtractAll(x, files, limit, overlay).Ok? <==> Tree(x.disk.Keys + FilePaths(files))
    ensures ExtractAll(x, files, limit, overlay).Ok? ==> Extracted(x, files, ExtractAll(x, files, limit, overlay).value)
  {
    hide Tree, ExtractOne, Ready, Extracted;
    if files == [] {
      NothingExtracted(x, files, limit, overlay);
    } else {
      var most := files[..|files| - 1];
      ReadyMost(x, files, limit, overlay);
      ExtractAllExact(x, most, limit, overlay);
      OneMore(files);
      if Tree(x.disk.Keys + FilePaths(files)) {
        TreeSubset(x.disk.Keys + FilePaths(most), x.disk.Keys + FilePaths(files));
      }
      if ExtractAll(x, most, limit, overlay).Ok? {
        ExtractedStep(x, files, ExtractAll(x, most, limit, overlay).value, limit, overlay);
      }
    }
  }

  lemma NothingExtracted(x: Extraction, files: seq<File>, limit: int, overlay: bool)
    requires Ready(x, files, limit, overlay) && files == []
    ensures Tree(x.disk.Keys + FilePaths(files)) && Extracted(x, files, x)
  {
    hide Tree;
    assert x.disk.Keys + FilePaths(files) == x.disk.Keys;
    assert x.disk + DiskOf(files) == x.disk;
  }

  lemma ReadyMost(x: Extraction, files: seq<File>, limit: int, overlay: bool)
    requires Ready(x, files, limit, overlay) && files != []
    ensures Ready(x, files[..|files| - 1], limit, overlay)
  {
    hide Tree, ValidWorkspacePath, IsConfigPath;
    SizeBound(files, |files| - 1);
  }

  lemma ReadyLast(x: Extraction, files: seq<File>, y: Extraction, limit: int, overlay: bool)
    requires Ready(x, files, limit, overlay) && files != [] && Extracted(x, files[..|files| - 1], y)
    ensures var f := files[|files| - 1];
      && y.seen == y.disk.Keys && Tree(y.disk.Keys)
      && y.entries + 1 <= MAX_ARCHIVE_ENTRIES && 0 <= y.total && y.total + |f.data| <= limit
      && ValidWorkspacePath(f.path) && f.path in y.expected && (f.path in y.seen ==> overlay && IsConfigPath(f.path))
      && y.seen == x.seen + FilePaths(files[..|files| - 1])
  {
    hide Tree, ValidWorkspacePath, IsConfigPath;
    var most, f := files[..|files| - 1], files[|files| - 1];
    assert f in files;
    DiskPaths(most);
    assert f.path !in FilePaths(most) by {
      forall g | g in most ensures g.path != f.path {
        var i :| 0 <= i < |most| && most[i] == g;
        assert files[i] == g;
      }
    }
  }

  // ---------------------------------------------------------------- a whole manifest, exactly

  /** The object of a descriptor is intact, and its archive holds what the descriptor says. */
  ghost predicate Holds(lib: Library, store: Store, b: Blob, files: seq<File>)
  {
    && b.key in store && |store[b.key]| == b.compressedSize && lib.sha256(store[b.key]) == b.sha256
    && lib.decode(store[b.key]) == Some(files)
    && DistinctPaths(files) && FilePaths(files) == PathSet(b.paths) && Size(files) == b.logicalSize
  }

  ghost predicate AllHold(lib: Library, store: Store, ds: seq<Blob>, groups: seq<seq<File>>)
  {
    |groups| == |ds| && forall i :: 0 <= i < |ds| ==> Holds(lib, store, ds[i], groups[i])
  }

  ghost predicate Laid(p: Progress, groups: seq<seq<File>>, ds: seq<Blob>)
  {
    && p.disk == DiskOf(Flat(groups)) && p.seen == p.disk.Keys && p.seen == AllPaths(ds) && Tree(p.seen)
    && p.extracted == LogicalSum(ds)
  }

  lemma {:induction false} CountDistinct(files: seq<File>)
    requires DistinctPaths(files)
    ensures |FilePaths(files)| == |files|
  {
    if files == [] {
      assert FilePaths(files) == {};
    } else {
      var most, f := files[..|files| - 1], files[|files| - 1];
      CountDistinct(most);
      OneMore(files);
      assert f.path !in FilePaths(most) by {
        forall g | g in most ensures g.path != f.path {
          var i :| 0 <= i < |most| && most[i] == g;
          assert files[i] == g;
        }
      }
    }
  }

  lemma {:induction false} PathCount(paths: seq<Path>)
    ensures |PathSet(paths)| <= |paths|
  {
    if paths != [] {
      var most, last := paths[..|paths| - 1], paths[|paths| - 1];
      PathCount(most);
      assert paths == most + [last];
      assert PathSet(paths) == PathSet(most) + {last};
    } else {
      assert PathSet(paths) == {};
    }
  }

  /** An accepted descriptor whose object is intact is ready to be extracted over the ones before it. */
  lemma ReadyNext(
    lib: Library, store: Store, m: Manifest, c: Command, ds: seq<Blob>, k: nat, files: seq<File>, p: Progress)
    requires k < |ds| && Listed(m, ds) && Holds(lib, store, ds[k], files)
    requires p.seen == p.disk.Keys && p.seen == AllPaths(ds[..k]) && Tree(p.seen) && ds[k].logicalSize <= WorkspaceLimit(c)
    ensures Ready(Extraction(p.disk, p.seen, PathSet(ds[k].paths), 0, 0), files, WorkspaceLimit(c),
                  m.config.Some? && ds[k].key == m.config.value.key)
  {
    hide Tree, ValidWorkspacePath, IsConfigPath, AllPaths, LogicalSum;
    var b := ds[k];
    assert ValidDescriptor(b) && ValidPaths(b.paths);
    CountDistinct(files);
    PathCount(b.paths);
    ListedPrefix(m, ds, k + 1);
    ListedStep(m, ds, k);
    forall f | f in files ensures ValidWorkspacePath(f.path) && f.path in PathSet(b.paths) &&
        (f.path in p.seen ==> m.config.Some? && b.key == m.config.value.key && IsConfigPath(f.path)) {
      assert f.path in FilePaths(files);
      var i :| 0 <= i < |b.paths| && b.paths[i] == f.path;
    }
  }

  lemma LaidNext(p: Progress, groups: seq<seq<File>>, ds: seq<Blob>, k: nat, x: Extraction)
    requires k < |ds| == |groups| && Laid(p, groups[..k], ds[..k])
    requires Extracted(Extraction(p.disk, p.seen, PathSet(ds[k].paths), 0, 0), groups[k], x)
    requires FilePaths(groups[k]) == PathSet(ds[k].paths) && Size(groups[k]) == ds[k].logicalSize
    ensures x.expected == {} && x.total == ds[k].logicalSize
    ensures Laid(Progress(x.disk, x.seen, p.extracted + x.total), groups[..k + 1], ds[..k + 1])
  {
    hide Tree, DiskOf, FilePaths, Size, PathSet;
    assert groups[..k + 1][..k] == groups[..k] && ds[..k + 1][..k] == ds[..k];
    assert Flat(groups[..k + 1]) == Flat(groups[..k]) + groups[k];
    DiskConcat(Flat(groups[..k]), groups[k]);
    DiskPaths(groups[k]);
    assert x.disk.Keys == p.seen + PathSet(ds[k].paths);
  }

  lemma NextPaths(ds: seq<Blob>, k: nat)
    requires k < |ds|
    ensures AllPaths(ds[..k + 1]) == AllPaths(ds[..k]) + PathSet(ds[k].paths)
    ensures LogicalSum(ds[..k + 1]) == LogicalSum(ds[..k]) + ds[k].logicalSize
  {
    assert ds[..k + 1][..k] == ds[..k];
  }

  lemma RestoreOneExact(
    lib: Library, store: Store, m: Manifest, c: Command, ds: seq<Blob>, groups: seq<seq<File>>, k: nat, p: Progress)
    requires k < |ds| == |groups| && Listed(m, ds) && AllHold(lib, store, ds, groups) && Laid(p, groups[..k], ds[..k])
    requires ds[k].logicalSize <= WorkspaceLimit(c) && LogicalSum(ds[..k + 1]) <= WorkspaceLimit(c)
    ensures var r := RestoreOne(lib, store, m, c, p, ds[k]);
      && (r.Ok? <==> Tree(AllPaths(ds[..k + 1])))
      && (r.Ok? ==> Laid(r.value, groups[..k + 1], ds[..k + 1]))
  {
    hide Tree, Listed, Laid, ExtractAll, Ready, Extracted, AllPaths, LogicalSum, ValidPaths, DistinctPaths;
    var b := ds[k];
    assert Holds(lib, store, b, groups[k]);
    assert ValidPaths(b.paths) by {
      ListedAt(m, ds, k);
    }
    LaidGives(p, groups[..k], ds[..k]);
    ReadyNext(lib, store, m, c, ds, k, groups[k], p);
    NextPaths(ds, k);
    var overlay := m.config.Some? && b.key == m.config.value.key;
    var x := Extraction(p.disk, p.seen, PathSet(b.paths), 0, 0);
    ExtractAllExact(x, groups[k], WorkspaceLimit(c), overlay);
    assert x.disk.Keys + FilePaths(groups[k]) == AllPaths(ds[..k + 1]);
    if ExtractAll(x, groups[k], WorkspaceLimit(c), overlay).Ok? {
      LaidNext(p, groups, ds, k, ExtractAll(x, groups[k], WorkspaceLimit(c), overlay).value);
    }
  }

  lemma ListedAt(m: Manifest, ds: seq<Blob>, k: nat)
    requires k < |ds| && Listed(m, ds)
    ensures ValidDescriptor(ds[k]) && ValidPaths(ds[k].paths)
  {
  }

  lemma LaidGives(p: Progress, groups: seq<seq<File>>, ds: seq<Blob>)
    requires Laid(p, groups, ds)
    ensures p.seen == p.disk.Keys && p.seen == AllPaths(ds) && Tree(p.seen) && p.extracted == LogicalSum(ds)
  {
  }

  lemma {:induction false} SumsGrow(ds: seq<Blob>, k: nat)
    requires k <= |ds| && forall i :: 0 <= i < |ds| ==> ds[i].logicalSize >= 0
    ensures LogicalSum(ds[..k]) <= LogicalSum(ds) && LogicalSum(ds) >= 0
    ensures k < |ds| ==> ds[k].logicalSize <= LogicalSum(ds)
    ensures AllPaths(ds[..k]) <= AllPaths(ds)
  {
    if ds == [] {
    } else if k < |ds| {
      var most := ds[..|ds| - 1];
      SumsGrow(most, if k < |most| then k else |most|);
      assert ds[..k] == most[..k];
    } else {
      assert ds[..k] == ds;
      SumsGrow(ds[..|ds| - 1], 0);
    }
  }

  lemma {:induction false} RestoreAllExact(
    lib: Library, store: Store, m: Manifest, c: Command, ds: seq<Blob>, groups: seq<seq<File>>, k: nat)
    requires k <= |ds| == |groups| && Listed(m, ds) && AllHold(lib, store, ds, groups) && LogicalSum(ds) <= WorkspaceLimit(c)
    ensures var r := RestoreAll(lib, store, m, c, ds[..k]);
      && (r.Ok? <==> Tree(AllPaths(ds[..k])))
      && (r.Ok? ==> Laid(r.value, groups[..k], ds[..k]))
  {
    hide Tree, Laid, RestoreOne, Listed, AllHold, AllPaths, LogicalSum;
    if k == 0 {
      NothingLaid(groups, ds);
    } else {
      forall i | 0 <= i < |ds| ensures ds[i].logicalSize >= 0 {
        ListedAt(m, ds, i);
      }
      RestoreAllExact(lib, store, m, c, ds, groups, k - 1);
      SumsGrow(ds, k - 1);
      SumsGrow(ds, k);
      NextPaths(ds, k - 1);
      assert ds[..k][..k - 1] == ds[..k - 1];
      if Tree(AllPaths(ds[..k])) {
        TreeSubset(AllPaths(ds[..k - 1]), AllPaths(ds[..k]));
      }
      var r := RestoreAll(lib, store, m, c, ds[..k - 1]);
      if r.Ok? {
        RestoreOneExact(lib, store, m, c, ds, groups, k - 1, r.value);
      }
    }
  }

  lemma NothingLaid(groups: seq<seq<File>>, ds: seq<Blob>)
    ensures Laid(Progress(map[], {}, 0), groups[..0], ds[..0]) && Tree(AllPaths(ds[..0]))
  {
  }

  /**
   An accepted manifest whose objects are intact can be restored exactly if no path is both a file and a
   directory. Every file of every archive is then on disk; where the config lies over the content, the config wins.
   */
  lemma RestoreExact(lib: Library, store: Store, m: Manifest, c: Command, groups: seq<seq<File>>)
    requires Accepted(lib, m, c) && AllHold(lib, store, Descriptors(m), groups)
    ensures Restore(lib, store, m, c).Ok? <==> Tree(AllPaths(Descriptors(m)))
    ensures Restore(lib, store, m, c).Ok? ==> Restore(lib, store, m, c).value == DiskOf(Flat(groups))
  {
    hide Tree, RestoreAll, Listed, AllHold, AllPaths, LogicalSum, CompressedSum, Layered, DiskOf, Flat, WorkspacePrefix;
    var ds := Descriptors(m);
    assert |groups| == |ds| by {
      HoldCount(lib, store, ds, groups);
    }
    RestoreAllExact(lib, store, m, c, ds, groups, |ds|);
    assert ds[..|ds|] == ds && groups[..|ds|] == groups;
  }

  lemma HoldCount(lib: Library, store: Store, ds: seq<Blob>, groups: seq<seq<File>>)
    requires AllHold(lib, store, ds, groups)
    ensures |groups| == |ds|
  {
  }
}
