/** The accepted server bundle, its declared mods, and how both become files of the build output. */
module Bundle {
  import opened Bytes
  import opened Sorting
  import opened Text
  import opened Tar
  import opened ZipReaders
  import opened Counting

  const MAX_ENTRIES: nat := 4096
  const MAX_MODS: nat := 16384

  /** "bundle.json", "instance/", "instance/mods/" and "mods/". */
  const BUNDLE_JSON: Path := [0x62, 0x75, 0x6E, 0x64, 0x6C, 0x65, 0x2E, 0x6A, 0x73, 0x6F, 0x6E]
  const INSTANCE: Bytes := [0x69, 0x6E, 0x73, 0x74, 0x61, 0x6E, 0x63, 0x65, 0x2F]
  const MODS: Bytes := [0x6D, 0x6F, 0x64, 0x73, 0x2F]

  /** "resolved/" with "version", "loader", "artifacts" and "mods", each with ".json". */
  const RESOLVED: Bytes := [0x72, 0x65, 0x73, 0x6F, 0x6C, 0x76, 0x65, 0x64, 0x2F]
  const JSON: Bytes := [0x2E, 0x6A, 0x73, 0x6F, 0x6E]
  const REQUIRED: seq<Path> := [
    RESOLVED + [0x76, 0x65, 0x72, 0x73, 0x69, 0x6F, 0x6E] + JSON,
    RESOLVED + [0x6C, 0x6F, 0x61, 0x64, 0x65, 0x72] + JSON,
    RESOLVED + [0x61, 0x72, 0x74, 0x69, 0x66, 0x61, 0x63, 0x74, 0x73] + JSON,
    RESOLVED + [0x6D, 0x6F, 0x64, 0x73] + JSON]

  datatype Listed = Listed(path: Path, sha256: nat, sizeBytes: int)
  datatype Mod = Mod(filename: Bytes, sha256: nat, sizeBytes: int, valid: bool)

  /** A declared mod is local, or names the remote source it was resolved from. */
  datatype Declaration =
    | LocalMod(path: Path, sha256: nat, sizeBytes: int)
    | RemoteMod(path: Path, filename: Bytes, sha256: nat, sizeBytes: int, source: nat)

  /** Hashing, the path rules written as regular expressions or word lists, case folding, and the
      comparison of a declared source with a frozen one. */
  datatype Library = Library(
    sha256: Bytes -> nat,
    listable: Path -> bool,
    forbidden: Path -> bool,
    fold: Path -> Path,
    safeModFilename: Bytes -> bool,
    sameSource: (nat, Mod) -> bool)

  predicate AllowedPath(lib: Library, path: Path)
  {
    SafeZipPath(path) && lib.listable(path)
  }

  // ---------------------------------------------------------------- manifest against archive

  predicate ListedLess(a: Listed, b: Listed)
  {
    PathLess(a.path, b.path)
  }

  function PathSet(files: seq<Listed>): (r: set<Path>)
    ensures forall p :: p in r <==> exists i :: 0 <= i < |files| && files[i].path == p
  {
    set i | 0 <= i < |files| :: files[i].path
  }

  /** The `files` lists `parseManifest` accepts. */
  ghost predicate ValidListing(lib: Library, files: seq<Listed>)
  {
    && (forall i :: 0 <= i < |files| ==> AllowedPath(lib, files[i].path) && files[i].sizeBytes >= 0)
    && Sorted(ListedLess, files)
  }

  /** A listed file is in the archive with the listed size and hash. */
  predicate Backed(lib: Library, f: Listed, entries: map<Path, Bytes>)
  {
    f.path in entries && |entries[f.path]| == f.sizeBytes && lib.sha256(entries[f.path]) == f.sha256
  }

  /** Look-up in `new Map(files.map((file) => [file.path, file]))`. */
  function Find(files: seq<Listed>, path: Path): (r: Result<Listed>)
    ensures r.Ok? <==> path in PathSet(files)
    ensures r.Ok? ==> r.value in files && r.value.path == path
  {
    if files == [] then Failed
    else if files[|files| - 1].path == path then Ok(files[|files| - 1])
    else
      assert forall p :: p in PathSet(files) <==> p in PathSet(files[..|files| - 1]) || p == files[|files| - 1].path;
      Find(files[..|files| - 1], path)
  }

  predicate EntryAccepted(lib: Library, files: seq<Listed>, path: Path, data: Bytes)
  {
    match Find(files, path)
    case Failed => false
    case Ok(f) => AllowedPath(lib, path) && f.sizeBytes == |data| && f.sha256 == lib.sha256(data)
  }

  /** The resolved metadata is there. */
  predicate HasResolved(entries: map<Path, Bytes>)
  {
    forall i :: 0 <= i < |REQUIRED| ==> REQUIRED[i] in entries
  }

  /** The checks of `validateBundle` that tie the archive to its manifest. */
  ghost predicate AcceptedBundle(lib: Library, files: seq<Listed>, entries: map<Path, Bytes>)
  {
    && ValidListing(lib, files)
    && BUNDLE_JSON in entries && |entries| <= MAX_ENTRIES
    && (forall p :: p in entries && p != BUNDLE_JSON ==> EntryAccepted(lib, files, p, entries[p]))
    && |PathSet(files)| == |entries| - 1
    && HasResolved(entries)
  }

  /** The loops of `parseManifest` and `validateBundle` decide exactly that. */
  method ValidateBundle(lib: Library, files: seq<Listed>, entries: map<Path, Bytes>) returns (ok: bool)
    ensures ok <==> AcceptedBundle(lib, files, entries)
  {
    hide AllowedPath, PathLess, HasResolved;
    PathOrder();
    var listing := true;
    for k := 0 to |files|
      invariant listing <==> ValidListing(lib, files[..k])
    {
      var f := files[k];
      var inOrder := k == 0 || PathLess(files[k - 1].path, f.path);
      ListingGrows(lib, files, k);
      listing := listing && AllowedPath(lib, f.path) && f.sizeBytes >= 0 && inOrder;
    }
    assert files[..|files|] == files;
    if !listing || BUNDLE_JSON !in entries || |entries| > 4096 {
      return false;
    }
    var todo := entries.Keys - {BUNDLE_JSON};
    while todo != {}
      invariant todo <= entries.Keys - {BUNDLE_JSON}
      invariant forall p :: p in entries && p != BUNDLE_JSON && p !in todo ==> EntryAccepted(lib, files, p, entries[p])
      decreases |todo|
    {
      var p :| p in todo;
      if !EntryAccepted(lib, files, p, entries[p]) {
        return false;
      }
      todo := todo - {p};
    }
    return |PathSet(files)| == |entries| - 1 && HasResolved(entries);
  }

  lemma ListingGrows(lib: Library, files: seq<Listed>, k: nat)
    requires k < |files| && StrictOrder(PathLess)
    ensures ValidListing(lib, files[..k + 1]) <==>
      && ValidListing(lib, files[..k]) && AllowedPath(lib, files[k].path) && files[k].sizeBytes >= 0
      && (k == 0 || PathLess(files[k - 1].path, files[k].path))
  {
    hide AllowedPath, PathLess;
    var s, t := files[..k], files[..k + 1];
    assert forall i :: 0 <= i < k ==> t[i] == s[i];
    if ValidListing(lib, s) && k > 0 && PathLess(files[k - 1].path, files[k].path) {
      forall i | 0 <= i < k ensures ListedLess(t[i], t[k]) {
        assert i < k - 1 ==> ListedLess(s[i], s[k - 1]);
      }
    }
    if ValidListing(lib, t) {
      assert k > 0 ==> ListedLess(t[k - 1], t[k]);
      assert forall i, j :: 0 <= i < j < k ==> ListedLess(t[i], t[j]);
    }
  }

  /** Archive entries and manifest files are in bijection, with equal sizes and hashes. */
  lemma BundleBijection(lib: Library, files: seq<Listed>, entries: map<Path, Bytes>)
    requires AcceptedBundle(lib, files, entries)
    ensures PathSet(files) == entries.Keys - {BUNDLE_JSON}
    ensures |files| == |entries| - 1
    ensures forall f :: f in files ==> Backed(lib, f, entries)
  {
    hide AllowedPath, PathLess, HasResolved;
    var others := entries.Keys - {BUNDLE_JSON};
    assert others <= PathSet(files);
    assert entries.Keys == others + {BUNDLE_JSON};
    assert |others| == |entries| - 1;
    SubsetOfSameSize(others, PathSet(files));
    PathOrder();
    SortedCount(files);
    forall f | f in files ensures Backed(lib, f, entries) {
      var i :| 0 <= i < |files| && files[i] == f;
      assert f.path in PathSet(files);
      assert EntryAccepted(lib, files, f.path, entries[f.path]);
      FindUnique(files, f);
    }
  }

  /** What an accepted bundle is, besides: small, listed in order by safe and allowed paths, with its metadata. */
  lemma AcceptedBundleHas(lib: Library, files: seq<Listed>, entries: map<Path, Bytes>)
    requires AcceptedBundle(lib, files, entries)
    ensures |entries| <= 4096 && [0x62, 0x75, 0x6E, 0x64, 0x6C, 0x65, 0x2E, 0x6A, 0x73, 0x6F, 0x6E] in entries
    ensures forall f :: f in files ==> SafePath(f.path, 1024) && lib.listable(f.path)
    ensures forall i, j :: 0 <= i < j < |files| ==> PathLess(files[i].path, files[j].path)
    ensures var resolved: Bytes := [0x72, 0x65, 0x73, 0x6F, 0x6C, 0x76, 0x65, 0x64, 0x2F]; var json: Bytes := [0x2E, 0x6A, 0x73, 0x6F, 0x6E];
      && resolved + [0x76, 0x65, 0x72, 0x73, 0x69, 0x6F, 0x6E] + json in entries && resolved + [0x6C, 0x6F, 0x61, 0x64, 0x65, 0x72] + json in entries
      && resolved + [0x61, 0x72, 0x74, 0x69, 0x66, 0x61, 0x63, 0x74, 0x73] + json in entries && resolved + [0x6D, 0x6F, 0x64, 0x73] + json in entries
  {
    hide PathLess, SafePath, EntryAccepted;
    assert REQUIRED[0] in entries && REQUIRED[1] in entries && REQUIRED[2] in entries && REQUIRED[3] in entries;
    forall f | f in files ensures SafePath(f.path, 1024) && lib.listable(f.path) {
      var i :| 0 <= i < |files| && files[i] == f;
    }
    forall i, j | 0 <= i < j < |files| ensures PathLess(files[i].path, files[j].path) {
      assert ListedLess(files[i], files[j]);
    }
  }

  lemma {:induction false} SortedCount(files: seq<Listed>)
    requires StrictOrder(PathLess) && Sorted(ListedLess, files)
    ensures |PathSet(files)| == |files|
  {
    hide PathLess;
    if files != [] {
      var most, f := files[..|files| - 1], files[|files| - 1];
      SortedCount(most);
      forall i | 0 <= i < |most| ensures most[i].path != f.path {
        assert ListedLess(files[i], files[|files| - 1]);
        assert !PathLess(f.path, f.path);
      }
      assert PathSet(files) == PathSet(most) + {f.path};
    }
  }

  lemma FindUnique(files: seq<Listed>, f: Listed)
    requires StrictOrder(PathLess) && Sorted(ListedLess, files)
    requires f in files
    ensures Find(files, f.path) == Ok(f)
  {
    hide PathLess, Find;
    var g := Find(files, f.path).value;
    var i :| 0 <= i < |files| && files[i] == f;
    assert f.path in PathSet(files);
    var j :| 0 <= j < |files| && files[j] == g;
    forall a, b | 0 <= a < b < |files| ensures files[a].path != files[b].path {
      assert ListedLess(files[a], files[b]);
      assert !PathLess(files[a].path, files[a].path);
    }
  }

  // ---------------------------------------------------------------- declared mods

  function LocalMods(files: seq<Listed>): (r: seq<Listed>)
    ensures forall f :: f in r <==> f in files && INSTANCE + MODS <= f.path
  {
    if files == [] then []
    else
      var f := files[|files| - 1];
      assert forall g :: g in files <==> g in files[..|files| - 1] || g == f;
      LocalMods(files[..|files| - 1]) + if INSTANCE + MODS <= f.path then [f] else []
  }

  function ModPath(mod: Mod): Path
  {
    INSTANCE + MODS + mod.filename
  }

  predicate Declares(lib: Library, d: Declaration, local: seq<Listed>, remote: map<Path, Mod>)
  {
    && d.sizeBytes >= 1
    && match d
       case LocalMod(path, sha256, size) =>
         Find(local, path).Ok? && Find(local, path).value.sha256 == sha256 && Find(local, path).value.sizeBytes == size
       case RemoteMod(path, filename, sha256, size, source) =>
         && path == INSTANCE + MODS + filename && lib.safeModFilename(filename)
         && path in remote && lib.sameSource(source, remote[path]) && remote[path].filename == filename
         && remote[path].sha256 == sha256 && remote[path].sizeBytes == size
  }

  /** The remote mods by path, after the first `k`: each valid, on its own path, and not a local one. */
  function RemoteMods(local: set<Path>, mods: seq<Mod>, k: nat): (r: Result<map<Path, Mod>>)
    requires k <= |mods|
  {
    if k == 0 then Ok(map[])
    else
      var remote :- RemoteMods(local, mods, k - 1);
      var path := ModPath(mods[k - 1]);
      if !mods[k - 1].valid || path in remote || path in local then Failed else Ok(remote[path := mods[k - 1]])
  }

  /** The paths of the first `k` declarations: each new, and matching the mod it names. */
  function Declared(lib: Library, ds: seq<Declaration>, local: seq<Listed>, remote: map<Path, Mod>, k: nat)
    : (r: Result<set<Path>>)
    requires k <= |ds|
  {
    if k == 0 then Ok({})
    else
      var seen :- Declared(lib, ds, local, remote, k - 1);
      var d := ds[k - 1];
      if d.path in seen || !Declares(lib, d, local, remote) then Failed else Ok(seen + {d.path})
  }

  ghost predicate ResolvedMods(lib: Library, files: seq<Listed>, mods: seq<Mod>, ds: seq<Declaration>)
  {
    var local := LocalMods(files);
    && RemoteMods(PathSet(local), mods, |mods|).Ok?
    && var remote := RemoteMods(PathSet(local), mods, |mods|).value;
    && Declared(lib, ds, local, remote, |ds|).Ok?
    && var seen := Declared(lib, ds, local, remote, |ds|).value;
    && |seen| == |PathSet(local)| + |remote|
    && PathSet(local) + remote.Keys <= seen
  }

  /** One declaration against the mods there are. */
  method CheckDeclaration(lib: Library, d: Declaration, local: seq<Listed>, remote: map<Path, Mod>) returns (ok: bool)
    ensures ok <==> Declares(lib, d, local, remote)
  {
    hide Find;
    if d.sizeBytes < 1 {
      return false;
    }
    if d.LocalMod? {
      var listed := Find(local, d.path);
      return listed.Ok? && listed.value.sha256 == d.sha256 && listed.value.sizeBytes == d.sizeBytes;
    }
    if d.path !in remote {
      return false;
    }
    var mod := remote[d.path];
    return d.path == INSTANCE + MODS + d.filename && lib.safeModFilename(d.filename) && mod.filename == d.filename &&
      mod.sha256 == d.sha256 && mod.sizeBytes == d.sizeBytes && lib.sameSource(d.source, mod);
  }

  /** The two loops of `verifyResolvedMods`. */
  method VerifyResolvedMods(lib: Library, files: seq<Listed>, mods: seq<Mod>, ds: seq<Declaration>)
    returns (ok: bool)
    ensures ok <==> ResolvedMods(lib, files, mods, ds)
  {
    hide LocalMods, Declares, PathSet, ModPath;
    var local := LocalMods(files);
    var remote: map<Path, Mod> := map[];
    for k := 0 to |mods|
      invariant RemoteMods(PathSet(local), mods, k) == Ok(remote)
    {
      var path := ModPath(mods[k]);
      if !mods[k].valid || path in remote || path in PathSet(local) {
        RemoteFails(PathSet(local), mods, k + 1, |mods|);
        return false;
      }
      remote := remote[path := mods[k]];
    }
    var seen: set<Path> := {};
    for k := 0 to |ds|
      invariant Declared(lib, ds, local, remote, k) == Ok(seen)
    {
      var d := ds[k];
      var agrees := CheckDeclaration(lib, d, local, remote);
      if d.path in seen || !agrees {
        DeclaredFails(lib, ds, local, remote, k + 1, |ds|);
        return false;
      }
      seen := seen + {d.path};
    }
    return |seen| == |PathSet(local)| + |remote| && PathSet(local) + remote.Keys <= seen;
  }

  lemma {:induction false} RemoteFails(local: set<Path>, mods: seq<Mod>, k: nat, n: nat)
    requires k <= n <= |mods| && RemoteMods(local, mods, k).Failed?
    ensures RemoteMods(local, mods, n).Failed?
    decreases n
  {
    if k < n {
      RemoteFails(local, mods, k, n - 1);
    }
  }

  lemma {:induction false} DeclaredFails(lib: Library, ds: seq<Declaration>, local: seq<Listed>,
                                         remote: map<Path, Mod>, k: nat, n: nat)
    requires k <= n <= |ds| && Declared(lib, ds, local, remote, k).Failed?
    ensures Declared(lib, ds, local, remote, n).Failed?
    decreases n
  {
    hide Declares;
    if k < n {
      DeclaredFails(lib, ds, local, remote, k, n - 1);
    }
  }

  lemma {:induction false} RemoteFacts(local: set<Path>, mods: seq<Mod>, n: nat)
    requires n <= |mods| && RemoteMods(local, mods, n).Ok?
    ensures var remote := RemoteMods(local, mods, n).value;
      && remote.Keys !! local
      && (forall i :: 0 <= i < n ==> ModPath(mods[i]) in remote)
      && (forall i, j :: 0 <= i < j < n ==> ModPath(mods[i]) != ModPath(mods[j]))
  {
    hide ModPath;
    if n > 0 {
      RemoteFacts(local, mods, n - 1);
    }
  }

  lemma {:induction false} DeclaredFacts(lib: Library, ds: seq<Declaration>, local: seq<Listed>,
                                         remote: map<Path, Mod>, n: nat)
    requires n <= |ds| && Declared(lib, ds, local, remote, n).Ok?
    ensures var seen := Declared(lib, ds, local, remote, n).value;
      && seen <= PathSet(local) + remote.Keys
      && (forall i :: 0 <= i < n ==> ds[i].path in seen && Declares(lib, ds[i], local, remote))
      && (forall i, j :: 0 <= i < j < n ==> ds[i].path != ds[j].path)
  {
    hide Declares, PathSet;
    if n > 0 {
      DeclaredFacts(lib, ds, local, remote, n - 1);
      DeclaresKnown(lib, ds[n - 1], local, remote);
    }
  }

  lemma DeclaresKnown(lib: Library, d: Declaration, local: seq<Listed>, remote: map<Path, Mod>)
    requires Declares(lib, d, local, remote)
    ensures if d.LocalMod? then d.path in PathSet(local) else d.path in remote
    ensures DeclaredTruly(lib, d, local, remote)
  {
    hide Find, PathSet;
  }

  /**
   What is declared of a mod is what the listing, or the resolved remote mod, says of it: its hash, a size of at least
   one byte, and for a remote one its safe file name, the path made of it, and its source.
   */
  ghost predicate DeclaredTruly(lib: Library, d: Declaration, local: seq<Listed>, remote: map<Path, Mod>)
  {
    && d.sizeBytes >= 1
    && if d.LocalMod? then Listed(d.path, d.sha256, d.sizeBytes) in local
       else
         && d.path in remote && remote[d.path].filename == d.filename
         && remote[d.path].sha256 == d.sha256 && remote[d.path].sizeBytes == d.sizeBytes
         && lib.safeModFilename(d.filename) && lib.sameSource(d.source, remote[d.path])
         && d.path == [0x69, 0x6E, 0x73, 0x74, 0x61, 0x6E, 0x63, 0x65, 0x2F, 0x6D, 0x6F, 0x64, 0x73, 0x2F] + d.filename
  }

  /**
   Local and remote mods are disjoint, and every mod of either kind is declared exactly once, as its kind and with
   its size and hash.
   */
  lemma ModsPartition(lib: Library, files: seq<Listed>, mods: seq<Mod>, ds: seq<Declaration>)
    requires ResolvedMods(lib, files, mods, ds)
    ensures var local := PathSet(LocalMods(files)); var remote := RemoteMods(local, mods, |mods|).value;
      && local !! remote.Keys
      && Declared(lib, ds, LocalMods(files), remote, |ds|) == Ok(local + remote.Keys)
      && (forall i, j :: 0 <= i < j < |ds| ==> ds[i].path != ds[j].path)
      && (forall i, j :: 0 <= i < j < |mods| ==> ModPath(mods[i]) != ModPath(mods[j]))
      && (forall i :: 0 <= i < |ds| ==> if ds[i].LocalMod? then ds[i].path in local else ds[i].path in remote)
      && forall i :: 0 <= i < |ds| ==> DeclaredTruly(lib, ds[i], LocalMods(files), remote)
  {
    hide LocalMods, Declared, PathSet, Declares, RemoteMods, ModPath, DeclaredTruly;
    var local := LocalMods(files);
    var remote := RemoteMods(PathSet(local), mods, |mods|).value;
    RemoteFacts(PathSet(local), mods, |mods|);
    DeclaredFacts(lib, ds, local, remote, |ds|);
    assert Declared(lib, ds, local, remote, |ds|).value == PathSet(local) + remote.Keys;
    forall i | 0 <= i < |ds|
      ensures if ds[i].LocalMod? then ds[i].path in PathSet(local) else ds[i].path in remote
      ensures DeclaredTruly(lib, ds[i], local, remote)
    {
      DeclaresKnown(lib, ds[i], local, remote);
    }
  }

  // ---------------------------------------------------------------- assembly

  function Stripped(path: Path): Path
  {
    if INSTANCE <= path then path[|INSTANCE|..] else path
  }

  /** The output after the first `k` listed files have been copied. */
  function Copied(lib: Library, output: map<Path, File>, files: seq<Listed>, entries: map<Path, Bytes>, k: nat)
    : (r: Result<map<Path, File>>)
    requires k <= |files|
  {
    if k == 0 then Ok(output)
    else
      var before :- Copied(lib, output, files, entries, k - 1);
      var f := files[k - 1];
      if !(INSTANCE <= f.path) then Ok(before)
      else
        var target := Stripped(f.path);
        if !Backed(lib, f, entries) || !SafeOutputPath(target) || lib.forbidden(target) || target in before then Failed
        else Ok(before[target := File(MODE_PLAIN, entries[f.path])])
  }

  /** `copyValidatedBundleContent`. */
  method CopyBundleContent(lib: Library, output: map<Path, File>, files: seq<Listed>, entries: map<Path, Bytes>)
    returns (r: Result<map<Path, File>>)
    ensures r == Copied(lib, output, files, entries, |files|)
  {
    hide SafePath, Stripped;
    var result := output;
    for k := 0 to |files|
      invariant Copied(lib, output, files, entries, k) == Ok(result)
    {
      var f := files[k];
      if INSTANCE <= f.path {
        var target := Stripped(f.path);
        if !Backed(lib, f, entries) || !SafeOutputPath(target) || lib.forbidden(target) || target in result {
          CopyFails(lib, output, files, entries, k + 1, |files|);
          return Failed;
        }
        result := result[target := File(420, entries[f.path])];
      }
    }
    return Ok(result);
  }

  lemma {:induction false} CopyFails(lib: Library, output: map<Path, File>, files: seq<Listed>,
                                     entries: map<Path, Bytes>, k: nat, n: nat)
    requires k <= n <= |files| && Copied(lib, output, files, entries, k).Failed?
    ensures Copied(lib, output, files, entries, n).Failed?
    decreases n
  {
    hide SafePath, Backed, Stripped;
    if k < n {
      CopyFails(lib, output, files, entries, k, n - 1);
    }
  }

  /** Copying only adds: what was there stays, and new paths come from instance files alone. */
  lemma {:induction false} CopiedKeeps(lib: Library, output: map<Path, File>, files: seq<Listed>,
                                       entries: map<Path, Bytes>, k: nat, n: nat)
    requires k <= n <= |files| && Copied(lib, output, files, entries, n).Ok?
    ensures Copied(lib, output, files, entries, k).Ok?
    ensures var a, b := Copied(lib, output, files, entries, k).value, Copied(lib, output, files, entries, n).value;
      && (forall p :: p in a ==> p in b && b[p] == a[p])
      && (forall p :: p in b ==> p in a || exists i :: k <= i < n && INSTANCE <= files[i].path && Stripped(files[i].path) == p)
    decreases n
  {
    hide SafePath, Backed, Stripped;
    if k < n {
      CopiedKeeps(lib, output, files, entries, k, n - 1);
    }
  }

  /** One copied file: its target was free, and afterwards holds the archive's bytes. */
  lemma CopyStep(lib: Library, output: map<Path, File>, files: seq<Listed>, entries: map<Path, Bytes>, i: nat)
    requires i < |files| && INSTANCE <= files[i].path && Copied(lib, output, files, entries, i + 1).Ok?
    ensures Copied(lib, output, files, entries, i).Ok? && Backed(lib, files[i], entries)
    ensures var before, after := Copied(lib, output, files, entries, i).value, Copied(lib, output, files, entries, i + 1).value;
      var target := Stripped(files[i].path);
      target !in before && target in after && after[target] == File(MODE_PLAIN, entries[files[i].path])
  {
    hide SafePath, Stripped;
  }

  /**
   After assembly every instance file sits at its stripped path with the bytes the archive had,
   installer output is untouched, and no target had been there before its file was copied.
   */
  lemma CopiedExactly(lib: Library, output: map<Path, File>, files: seq<Listed>, entries: map<Path, Bytes>, i: nat)
    requires Copied(lib, output, files, entries, |files|).Ok?
    requires i < |files| && INSTANCE <= files[i].path
    ensures var result := Copied(lib, output, files, entries, |files|).value; var target := Stripped(files[i].path);
      && Backed(lib, files[i], entries)
      && target !in output && target in result && result[target] == File(MODE_PLAIN, entries[files[i].path])
      && (forall p :: p in output ==> p in result && result[p] == output[p])
      && (forall j :: 0 <= j < i && INSTANCE <= files[j].path ==> Stripped(files[j].path) != target)
  {
    hide SafePath, Stripped, Copied;
    CopiedKeeps(lib, output, files, entries, i + 1, |files|);
    CopyStep(lib, output, files, entries, i);
    assert Copied(lib, output, files, entries, 0) == Ok(output) by { NothingCopied(lib, output, files, entries); }
    CopiedKeeps(lib, output, files, entries, 0, i);
    CopiedKeeps(lib, output, files, entries, 0, |files|);
    forall j | 0 <= j < i && INSTANCE <= files[j].path ensures Stripped(files[j].path) != Stripped(files[i].path) {
      CopiedKeeps(lib, output, files, entries, j + 1, i);
      CopyStep(lib, output, files, entries, j);
    }
  }

  lemma NothingCopied(lib: Library, output: map<Path, File>, files: seq<Listed>, entries: map<Path, Bytes>)
    ensures Copied(lib, output, files, entries, 0) == Ok(output)
  {
  }

  /** Stripping takes "instance/" off the front. */
  lemma StrippedExactly(path: Path)
    requires [0x69, 0x6E, 0x73, 0x74, 0x61, 0x6E, 0x63, 0x65, 0x2F] <= path
    ensures [0x69, 0x6E, 0x73, 0x74, 0x61, 0x6E, 0x63, 0x65, 0x2F] + Stripped(path) == path
  {
  }

  /** Where an instance file may be put: a safe path that is not forbidden. */
  ghost predicate Placeable(lib: Library, f: Listed, entries: map<Path, Bytes>)
  {
    && f.path in entries && |entries[f.path]| == f.sizeBytes && lib.sha256(entries[f.path]) == f.sha256
    && SafePath(Stripped(f.path), 255) && !lib.forbidden(Stripped(f.path))
  }

  lemma {:induction false} CopiesAll(lib: Library, output: map<Path, File>, files: seq<Listed>, entries: map<Path, Bytes>, k: nat)
    requires k <= |files|
    requires forall i :: 0 <= i < k && INSTANCE <= files[i].path ==> Placeable(lib, files[i], entries) && Stripped(files[i].path) !in output
    requires forall i, j :: 0 <= i < j < k && INSTANCE <= files[i].path && INSTANCE <= files[j].path ==>
      Stripped(files[i].path) != Stripped(files[j].path)
    ensures Copied(lib, output, files, entries, k).Ok?
  {
    hide SafePath, Stripped;
    if k > 0 {
      CopiesAll(lib, output, files, entries, k - 1);
      var f := files[k - 1];
      if INSTANCE <= f.path {
        NothingCopied(lib, output, files, entries);
        CopiedKeeps(lib, output, files, entries, 0, k - 1);
        assert Placeable(lib, f, entries);
      }
    }
  }

  /** Copying succeeds exactly if every instance file is intact and placeable, on a path of its own. */
  lemma CopySucceedsExactly(lib: Library, output: map<Path, File>, files: seq<Listed>, entries: map<Path, Bytes>)
    ensures Copied(lib, output, files, entries, |files|).Ok? <==>
        && (forall i :: 0 <= i < |files| && INSTANCE <= files[i].path ==>
              Placeable(lib, files[i], entries) && Stripped(files[i].path) !in output)
        && (forall i, j :: 0 <= i < j < |files| && INSTANCE <= files[i].path && INSTANCE <= files[j].path ==>
              Stripped(files[i].path) != Stripped(files[j].path))
  {
    hide SafePath, Stripped, Copied, Placeable;
    if Copied(lib, output, files, entries, |files|).Ok? {
      forall i | 0 <= i < |files| && INSTANCE <= files[i].path
        ensures Placeable(lib, files[i], entries) && Stripped(files[i].path) !in output
        ensures forall j :: 0 <= j < i && INSTANCE <= files[j].path ==> Stripped(files[j].path) != Stripped(files[i].path)
      {
        CopiedExactly(lib, output, files, entries, i);
        CopiedKeeps(lib, output, files, entries, i + 1, |files|);
        WasPlaceable(lib, output, files, entries, i);
      }
    } else if (&& (forall i :: 0 <= i < |files| && INSTANCE <= files[i].path ==>
                     Placeable(lib, files[i], entries) && Stripped(files[i].path) !in output)
               && (forall i, j :: 0 <= i < j < |files| && INSTANCE <= files[i].path && INSTANCE <= files[j].path ==>
                     Stripped(files[i].path) != Stripped(files[j].path))) {
      CopiesAll(lib, output, files, entries, |files|);
    }
  }

  lemma WasPlaceable(lib: Library, output: map<Path, File>, files: seq<Listed>, entries: map<Path, Bytes>, i: nat)
    requires i < |files| && INSTANCE <= files[i].path && Copied(lib, output, files, entries, i + 1).Ok?
    ensures Placeable(lib, files[i], entries)
  {
    hide SafePath, Stripped;
  }

  function RemoteTarget(mod: Mod): Path
  {
    MODS + mod.filename
  }

  /** A remote mod is put where a local mod of its name would be. */
  lemma RemoteTargetIsLocal(mod: Mod)
    ensures RemoteTarget(mod) == Stripped(ModPath(mod)) && ModPath(mod) == [0x69, 0x6E, 0x73, 0x74, 0x61, 0x6E, 0x63, 0x65, 0x2F, 0x6D, 0x6F, 0x64, 0x73, 0x2F] + mod.filename
  {
    assert INSTANCE <= ModPath(mod);
    assert ModPath(mod)[|INSTANCE|..] == MODS + mod.filename;
    assert INSTANCE + MODS == [0x69, 0x6E, 0x73, 0x74, 0x61, 0x6E, 0x63, 0x65, 0x2F, 0x6D, 0x6F, 0x64, 0x73, 0x2F];
  }

  function Folded(lib: Library, files: map<Path, File>): set<Path>
  {
    set p | p in files :: lib.fold(p)
  }

  /** The output after the first `k` remote mods have been added. */
  function WithMods(lib: Library, output: map<Path, File>, mods: seq<Mod>, download: Mod -> Bytes, k: nat)
    : (r: Result<map<Path, File>>)
    requires k <= |mods|
  {
    if k == 0 then (if |mods| > MAX_MODS then Failed else Ok(output))
    else
      var before :- WithMods(lib, output, mods, download, k - 1);
      var mod := mods[k - 1];
      var target, data := RemoteTarget(mod), download(mod);
      if !mod.valid || lib.fold(target) in Folded(lib, before) || !SafeOutputPath(target) || lib.forbidden(target) ||
        |data| != mod.sizeBytes || lib.sha256(data) != mod.sha256 then Failed
      else Ok(before[target := File(MODE_PLAIN, data)])
  }

  /** `addRemoteMods`, with the downloaded bytes as a function of the mod. */
  method AddRemoteMods(lib: Library, output: map<Path, File>, mods: seq<Mod>, download: Mod -> Bytes)
    returns (r: Result<map<Path, File>>)
    ensures r == WithMods(lib, output, mods, download, |mods|)
  {
    hide SafePath, RemoteTarget;
    if |mods| > 16384 {
      ModsFail(lib, output, mods, download, 0, |mods|);
      return Failed;
    }
    var result := output;
    var taken := Folded(lib, output);
    for k := 0 to |mods|
      invariant WithMods(lib, output, mods, download, k) == Ok(result)
      invariant taken == Folded(lib, result)
    {
      var mod := mods[k];
      var target := RemoteTarget(mod);
      var refused := !mod.valid || lib.fold(target) in taken || !SafeOutputPath(target) || lib.forbidden(target);
      var data := download(mod);
      if refused || |data| != mod.sizeBytes || lib.sha256(data) != mod.sha256 {
        ModsFail(lib, output, mods, download, k + 1, |mods|);
        return Failed;
      }
      taken := taken + {lib.fold(target)};
      result := result[target := File(420, data)];
    }
    return Ok(result);
  }

  lemma {:induction false} ModsFail(lib: Library, output: map<Path, File>, mods: seq<Mod>, download: Mod -> Bytes,
                                    k: nat, n: nat)
    requires k <= n <= |mods| && WithMods(lib, output, mods, download, k).Failed?
    ensures WithMods(lib, output, mods, download, n).Failed?
    decreases n
  {
    hide SafePath, RemoteTarget, Folded;
    if k < n {
      ModsFail(lib, output, mods, download, k, n - 1);
    }
  }

  lemma {:induction false} ModsKeep(lib: Library, output: map<Path, File>, mods: seq<Mod>, download: Mod -> Bytes,
                                    k: nat, n: nat)
    requires k <= n <= |mods| && WithMods(lib, output, mods, download, n).Ok?
    ensures WithMods(lib, output, mods, download, k).Ok?
    ensures var a, b := WithMods(lib, output, mods, download, k).value, WithMods(lib, output, mods, download, n).value;
      && (forall p :: p in a ==> p in b && b[p] == a[p])
      && (forall p :: p in b ==> p in a || exists j :: k <= j < n && RemoteTarget(mods[j]) == p)
    decreases n
  {
    hide SafePath, RemoteTarget;
    if k < n {
      ModsKeep(lib, output, mods, download, k, n - 1);
      var before := WithMods(lib, output, mods, download, n - 1).value;
      assert RemoteTarget(mods[n - 1]) in before ==> lib.fold(RemoteTarget(mods[n - 1])) in Folded(lib, before);
    }
  }

  /** A mod is added only on a path that nothing present folds to. */
  lemma ModAddedAlone(lib: Library, output: map<Path, File>, mods: seq<Mod>, download: Mod -> Bytes, i: nat, p: Path)
    requires i < |mods| && WithMods(lib, output, mods, download, i + 1).Ok?
    ensures WithMods(lib, output, mods, download, i).Ok?
    ensures p in WithMods(lib, output, mods, download, i).value ==> lib.fold(p) != lib.fold(RemoteTarget(mods[i]))
  {
    hide SafePath, RemoteTarget;
    if p in WithMods(lib, output, mods, download, i).value {
      assert lib.fold(p) in Folded(lib, WithMods(lib, output, mods, download, i).value);
    }
  }

  /** Every remote mod is added with its own verified bytes; nothing that was there changes, and nothing else is added. */
  lemma ModsAddedExactly(lib: Library, output: map<Path, File>, mods: seq<Mod>, download: Mod -> Bytes, i: nat)
    requires WithMods(lib, output, mods, download, |mods|).Ok? && i < |mods|
    ensures var result := WithMods(lib, output, mods, download, |mods|).value; var target := RemoteTarget(mods[i]);
      && target in result && result[target] == File(MODE_PLAIN, download(mods[i]))
      && |download(mods[i])| == mods[i].sizeBytes && lib.sha256(download(mods[i])) == mods[i].sha256
      && (forall p :: p in output ==> p in result && result[p] == output[p])
      && (forall p :: p in result ==> p in output || exists j :: 0 <= j < |mods| && RemoteTarget(mods[j]) == p)
  {
    hide SafePath, RemoteTarget, Folded;
    ModsKeep(lib, output, mods, download, i + 1, |mods|);
    ModsKeep(lib, output, mods, download, 0, |mods|);
  }

  /** No two remote mods, and no remote mod and other file, share a path even after case folding. */
  lemma ModsNeverCollide(lib: Library, output: map<Path, File>, mods: seq<Mod>, download: Mod -> Bytes, i: nat)
    requires WithMods(lib, output, mods, download, |mods|).Ok? && i < |mods|
    ensures forall p :: p in output ==> lib.fold(p) != lib.fold(RemoteTarget(mods[i]))
    ensures forall j :: 0 <= j < i ==> lib.fold(RemoteTarget(mods[j])) != lib.fold(RemoteTarget(mods[i]))
  {
    hide SafePath, RemoteTarget, Folded, WithMods;
    ModsKeep(lib, output, mods, download, i + 1, |mods|);
    forall p | p in output ensures lib.fold(p) != lib.fold(RemoteTarget(mods[i])) {
      ModsStart(lib, output, mods, download, i + 1);
      ModAddedAlone(lib, output, mods, download, i, p);
      ModsKeep(lib, output, mods, download, 0, i);
    }
    forall j | 0 <= j < i ensures lib.fold(RemoteTarget(mods[j])) != lib.fold(RemoteTarget(mods[i])) {
      ModAddedAlone(lib, output, mods, download, i, RemoteTarget(mods[j]));
      ModsKeep(lib, output, mods, download, j + 1, i);
      ModPresent(lib, output, mods, download, j);
    }
  }

  lemma ModsStart(lib: Library, output: map<Path, File>, mods: seq<Mod>, download: Mod -> Bytes, n: nat)
    requires n <= |mods| && WithMods(lib, output, mods, download, n).Ok?
    ensures WithMods(lib, output, mods, download, 0) == Ok(output)
  {
    hide SafePath, RemoteTarget, Folded;
    ModsKeep(lib, output, mods, download, 0, n);
  }

  lemma ModPresent(lib: Library, output: map<Path, File>, mods: seq<Mod>, download: Mod -> Bytes, j: nat)
    requires j < |mods| && WithMods(lib, output, mods, download, j + 1).Ok?
    ensures RemoteTarget(mods[j]) in WithMods(lib, output, mods, download, j + 1).value
  {
    hide SafePath, RemoteTarget, Folded;
  }

  /** A remote mod that may be added where nothing is in its way. */
  ghost predicate Addable(lib: Library, mod: Mod, download: Mod -> Bytes)
  {
    && mod.valid && SafePath(RemoteTarget(mod), 255) && !lib.forbidden(RemoteTarget(mod))
    && |download(mod)| == mod.sizeBytes && lib.sha256(download(mod)) == mod.sha256
  }

  lemma {:induction false} AddsAll(lib: Library, output: map<Path, File>, mods: seq<Mod>, download: Mod -> Bytes, k: nat)
    requires k <= |mods| <= MAX_MODS
    requires forall i :: 0 <= i < k ==> Addable(lib, mods[i], download)
    requires forall i, p :: 0 <= i < k && p in output ==> lib.fold(p) != lib.fold(RemoteTarget(mods[i]))
    requires forall i, j :: 0 <= i < j < k ==> lib.fold(RemoteTarget(mods[i])) != lib.fold(RemoteTarget(mods[j]))
    ensures WithMods(lib, output, mods, download, k).Ok?
  {
    hide SafePath, RemoteTarget;
    if k > 0 {
      AddsAll(lib, output, mods, download, k - 1);
      ModsStart(lib, output, mods, download, k - 1);
      ModsKeep(lib, output, mods, download, 0, k - 1);
      var before := WithMods(lib, output, mods, download, k - 1).value;
      assert Addable(lib, mods[k - 1], download);
      forall p | p in before ensures lib.fold(p) != lib.fold(RemoteTarget(mods[k - 1])) {
        if p !in output {
          var j :| 0 <= j < k - 1 && RemoteTarget(mods[j]) == p;
        }
      }
    }
  }

  /**
   Adding the mods succeeds exactly if there are at most 16384, each is addable, and after case folding each has a path
   of its own.
   */
  lemma ModsSucceedExactly(lib: Library, output: map<Path, File>, mods: seq<Mod>, download: Mod -> Bytes)
    ensures WithMods(lib, output, mods, download, |mods|).Ok? <==>
        && |mods| <= 16384 && (forall i :: 0 <= i < |mods| ==> Addable(lib, mods[i], download))
        && (forall i, p :: 0 <= i < |mods| && p in output ==> lib.fold(p) != lib.fold(RemoteTarget(mods[i])))
        && (forall i, j :: 0 <= i < j < |mods| ==> lib.fold(RemoteTarget(mods[i])) != lib.fold(RemoteTarget(mods[j])))
  {
    hide SafePath, RemoteTarget, WithMods, Folded, Addable;
    if WithMods(lib, output, mods, download, |mods|).Ok? {
      ModsStart(lib, output, mods, download, |mods|);
      FewMods(lib, output, mods, download);
      forall i | 0 <= i < |mods|
        ensures Addable(lib, mods[i], download)
        ensures forall p :: p in output ==> lib.fold(p) != lib.fold(RemoteTarget(mods[i]))
        ensures forall j :: 0 <= j < i ==> lib.fold(RemoteTarget(mods[j])) != lib.fold(RemoteTarget(mods[i]))
      {
        ModsKeep(lib, output, mods, download, i + 1, |mods|);
        WasAddable(lib, output, mods, download, i);
        ModsNeverCollide(lib, output, mods, download, i);
      }
    } else if (&& |mods| <= 16384 && (forall i :: 0 <= i < |mods| ==> Addable(lib, mods[i], download))
               && (forall i, p :: 0 <= i < |mods| && p in output ==> lib.fold(p) != lib.fold(RemoteTarget(mods[i])))
               && (forall i, j :: 0 <= i < j < |mods| ==> lib.fold(RemoteTarget(mods[i])) != lib.fold(RemoteTarget(mods[j])))) {
      AddsAll(lib, output, mods, download, |mods|);
    }
  }

  lemma FewMods(lib: Library, output: map<Path, File>, mods: seq<Mod>, download: Mod -> Bytes)
    requires WithMods(lib, output, mods, download, 0).Ok?
    ensures |mods| <= 16384
  {
  }

  lemma WasAddable(lib: Library, output: map<Path, File>, mods: seq<Mod>, download: Mod -> Bytes, i: nat)
    requires i < |mods| && WithMods(lib, output, mods, download, i + 1).Ok?
    ensures Addable(lib, mods[i], download)
  {
    hide SafePath, RemoteTarget, Folded;
  }
}
