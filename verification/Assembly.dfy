/** From an accepted bundle to the published archive: what a build takes in is what its archive unpacks to. */
module Assembly {
  import opened Bytes
  import opened Text
  import opened Tar
  import opened TarRoundTrip
  import opened Bundle
  import Zip
  import ZipReaders
  import ZipCode
  import Package

  /** Everything a build assembles: the installer's output, the bundle, the remote mods and the generated files. */
  datatype Inputs = Inputs(
    output: map<Path, File>, files: seq<Listed>, entries: map<Path, Bytes>, mods: seq<Mod>, download: Mod -> Bytes,
    runtime: Bytes, launcher: Bytes)

  function Assembled(lib: Library, x: Inputs): Result<map<Path, File>>
  {
    var copied :- Copied(lib, x.output, x.files, x.entries, |x.files|);
    WithMods(lib, copied, x.mods, x.download, |x.mods|)
  }

  /** The files in any order, and the generated ones after them. */
  ghost predicate Finished(lib: Library, x: Inputs, es: seq<Entry>, all: seq<Entry>)
  {
    && Assembled(lib, x).Ok?
    && DistinctPaths(es) && MapOf(es) == Assembled(lib, x).value
    && Package.AllFiles(es, x.runtime, x.launcher) == Ok(all)
  }

  lemma AssembledStays(lib: Library, x: Inputs, es: seq<Entry>, all: seq<Entry>, p: Path)
    requires Finished(lib, x, es, all) && p in Assembled(lib, x).value
    ensures p in MapOf(all) && MapOf(all)[p] == Assembled(lib, x).value[p]
  {
    hide MapOf, Copied, WithMods, Package.AllFiles, Assembled;
    var i :| 0 <= i < |es| && es[i].path == p;
    MapOfAt(es, i);
    assert es[i] in all;
    var j :| 0 <= j < |all| && all[j] == es[i];
    MapOfAt(all, j);
  }

  /** The installer's output is in the archive unchanged. */
  lemma OutputReachesArchive(lib: Library, x: Inputs, es: seq<Entry>, all: seq<Entry>, p: Path)
    requires Finished(lib, x, es, all) && p in x.output
    ensures p in MapOf(all) && MapOf(all)[p] == x.output[p]
  {
    hide MapOf, Package.AllFiles;
    var copied := Copied(lib, x.output, x.files, x.entries, |x.files|).value;
    CopiedKeeps(lib, x.output, x.files, x.entries, 0, |x.files|);
    ModsKeep(lib, copied, x.mods, x.download, 0, |x.mods|);
    ModsStart(lib, copied, x.mods, x.download, |x.mods|);
    AssembledStays(lib, x, es, all, p);
  }

  /** Every instance file of an accepted bundle is in the archive, at its stripped path, with its listed bytes. */
  lemma BundleReachesArchive(lib: Library, x: Inputs, es: seq<Entry>, all: seq<Entry>, i: nat)
    requires AcceptedBundle(lib, x.files, x.entries) && Finished(lib, x, es, all)
    requires i < |x.files| && INSTANCE <= x.files[i].path
    ensures var f := x.files[i]; var target := Stripped(f.path);
      && f.path in x.entries && target in MapOf(all) && MapOf(all)[target] == File(MODE_PLAIN, x.entries[f.path])
      && |x.entries[f.path]| == f.sizeBytes && lib.sha256(x.entries[f.path]) == f.sha256
  {
    hide MapOf, Package.AllFiles, Stripped, AcceptedBundle;
    var copied := Copied(lib, x.output, x.files, x.entries, |x.files|).value;
    CopiedExactly(lib, x.output, x.files, x.entries, i);
    ModsKeep(lib, copied, x.mods, x.download, 0, |x.mods|);
    ModsStart(lib, copied, x.mods, x.download, |x.mods|);
    AssembledStays(lib, x, es, all, Stripped(x.files[i].path));
  }

  /** Every remote mod is in the archive with the bytes that were verified. */
  lemma ModReachesArchive(lib: Library, x: Inputs, es: seq<Entry>, all: seq<Entry>, i: nat)
    requires Finished(lib, x, es, all) && i < |x.mods|
    ensures var mod := x.mods[i]; var target := RemoteTarget(mod);
      && target in MapOf(all) && MapOf(all)[target] == File(MODE_PLAIN, x.download(mod))
      && |x.download(mod)| == mod.sizeBytes && lib.sha256(x.download(mod)) == mod.sha256
  {
    hide MapOf, Package.AllFiles, RemoteTarget;
    var copied := Copied(lib, x.output, x.files, x.entries, |x.files|).value;
    ModsAddedExactly(lib, copied, x.mods, x.download, i);
    AssembledStays(lib, x, es, all, RemoteTarget(x.mods[i]));
  }

  /** The two generated files are in the archive, and the launcher can be executed. */
  lemma GeneratedReachArchive(lib: Library, x: Inputs, es: seq<Entry>, all: seq<Entry>)
    requires Finished(lib, x, es, all)
    ensures Package.RUNTIME in MapOf(all) && MapOf(all)[Package.RUNTIME] == File(MODE_PLAIN, x.runtime)
    ensures Package.LAUNCH in MapOf(all) && MapOf(all)[Package.LAUNCH] == File(MODE_EXECUTABLE, x.launcher)
  {
    hide MapOf, Copied, WithMods, Package.AllFiles, Assembled;
    var i :| 0 <= i < |all| && all[i] == Entry(Package.RUNTIME, File(MODE_PLAIN, x.runtime));
    MapOfAt(all, i);
    var j :| 0 <= j < |all| && all[j] == Entry(Package.LAUNCH, File(MODE_EXECUTABLE, x.launcher));
    MapOfAt(all, j);
  }

  /** Where a file of the archive may come from. */
  ghost predicate Sourced(x: Inputs, p: Path)
  {
    || p in x.output
    || (exists i :: 0 <= i < |x.files| && INSTANCE <= x.files[i].path && Stripped(x.files[i].path) == p)
    || (exists i :: 0 <= i < |x.mods| && RemoteTarget(x.mods[i]) == p)
    || p == Package.RUNTIME || p == Package.LAUNCH
  }

  /** Nothing else is in the archive. */
  lemma ArchiveHasNothingElse(lib: Library, x: Inputs, es: seq<Entry>, all: seq<Entry>, p: Path)
    requires Finished(lib, x, es, all) && p in MapOf(all)
    ensures Sourced(x, p)
  {
    hide MapOf, Stripped, RemoteTarget, Package.AllFiles;
    var k :| 0 <= k < |all| && all[k].path == p;
    assert all[k] in es || p == Package.RUNTIME || p == Package.LAUNCH;
    if all[k] in es {
      var j :| 0 <= j < |es| && es[j] == all[k];
      assert es[j].path in MapOf(es);
      var copied := Copied(lib, x.output, x.files, x.entries, |x.files|).value;
      CopiedKeeps(lib, x.output, x.files, x.entries, 0, |x.files|);
      ModsKeep(lib, copied, x.mods, x.download, 0, |x.mods|);
      ModsStart(lib, copied, x.mods, x.download, |x.mods|);
    }
  }

  // ---------------------------------------------------------------- the end of `build`

  /** Paths and file names are strings, written as UTF-8. */
  ghost predicate TextPaths(x: Inputs)
  {
    && (forall p :: p in x.output ==> Utf8(p))
    && (forall f :: f in x.files ==> Utf8(f.path))
    && (forall mod :: mod in x.mods ==> Utf8(mod.filename))
  }

  lemma StrippedText(path: Path)
    requires Utf8(path)
    ensures Utf8(Stripped(path))
  {
    hide Utf8;
    if INSTANCE <= path {
      var cut := |INSTANCE| - 1;
      assert path == path[..cut] + [INSTANCE[cut]] + path[cut + 1..];
      CutAtAscii(path[..cut], INSTANCE[cut], path[cut + 1..]);
    }
  }

  lemma AssembledText(lib: Library, x: Inputs, p: Path)
    requires TextPaths(x) && Assembled(lib, x).Ok? && p in Assembled(lib, x).value
    ensures Utf8(p)
  {
    hide Utf8, Stripped;
    var copied := Copied(lib, x.output, x.files, x.entries, |x.files|).value;
    CopiedKeeps(lib, x.output, x.files, x.entries, 0, |x.files|);
    ModsKeep(lib, copied, x.mods, x.download, 0, |x.mods|);
    ModsStart(lib, copied, x.mods, x.download, |x.mods|);
    if j :| 0 <= j < |x.mods| && RemoteTarget(x.mods[j]) == p {
      AsciiUtf8(MODS);
      Utf8Concat(MODS, x.mods[j].filename);
    } else if p !in x.output {
      var i :| 0 <= i < |x.files| && INSTANCE <= x.files[i].path && Stripped(x.files[i].path) == p;
      StrippedText(x.files[i].path);
    }
  }

  lemma ListedOneMore(es: seq<Entry>, e: Entry)
    requires DistinctPaths(es) && e.path !in MapOf(es)
    ensures DistinctPaths(es + [e]) && MapOf(es + [e]) == MapOf(es)[e.path := e.file]
  {
    assert (es + [e])[..|es + [e]| - 1] == es;
    assert forall i :: 0 <= i < |es| ==> es[i].path in MapOf(es);
  }

  /** The entries of a map, in whatever order they come. */
  method List(files: map<Path, File>) returns (es: seq<Entry>)
    ensures DistinctPaths(es) && MapOf(es) == files
  {
    hide MapOf, DistinctPaths;
    es := [];
    var todo := files.Keys;
    NothingListed();
    while todo != {}
      invariant todo <= files.Keys && DistinctPaths(es)
      invariant MapOf(es).Keys == files.Keys - todo
      invariant forall p :: p in MapOf(es) ==> MapOf(es)[p] == files[p]
      decreases |todo|
    {
      var p :| p in todo;
      ListedOneMore(es, Entry(p, files[p]));
      es := es + [Entry(p, files[p])];
      todo := todo - {p};
    }
  }

  lemma NothingListed()
    ensures DistinctPaths([]) && MapOf([]) == map[]
  {
  }

  /** What the archive of a build holds. */
  ghost predicate Delivers(x: Inputs, files: map<Path, File>)
  {
    && (forall p :: p in files ==> Sourced(x, p))
    && Package.RUNTIME in files && files[Package.RUNTIME] == File(MODE_PLAIN, x.runtime)
    && Package.LAUNCH in files && files[Package.LAUNCH] == File(MODE_EXECUTABLE, x.launcher)
    && (forall p :: p in x.output ==> p in files && files[p] == x.output[p])
    && (forall i :: 0 <= i < |x.files| && INSTANCE <= x.files[i].path ==>
          && x.files[i].path in x.entries && Stripped(x.files[i].path) in files
          && files[Stripped(x.files[i].path)] == File(MODE_PLAIN, x.entries[x.files[i].path]))
    && (forall i :: 0 <= i < |x.mods| ==>
          RemoteTarget(x.mods[i]) in files && files[RemoteTarget(x.mods[i])] == File(MODE_PLAIN, x.download(x.mods[i])))
  }

  lemma FinishedDelivers(lib: Library, x: Inputs, es: seq<Entry>, all: seq<Entry>)
    requires AcceptedBundle(lib, x.files, x.entries) && Finished(lib, x, es, all)
    ensures Delivers(x, MapOf(all))
  {
    hide MapOf, Copied, WithMods, Stripped, RemoteTarget, AcceptedBundle, Assembled, Package.AllFiles, Sourced;
    GeneratedReachArchive(lib, x, es, all);
    forall p | p in MapOf(all) ensures Sourced(x, p) {
      ArchiveHasNothingElse(lib, x, es, all, p);
    }
    forall p | p in x.output ensures p in MapOf(all) && MapOf(all)[p] == x.output[p] {
      OutputReachesArchive(lib, x, es, all, p);
    }
    forall i | 0 <= i < |x.files| && INSTANCE <= x.files[i].path
      ensures x.files[i].path in x.entries && Stripped(x.files[i].path) in MapOf(all) &&
              MapOf(all)[Stripped(x.files[i].path)] == File(MODE_PLAIN, x.entries[x.files[i].path])
    {
      BundleReachesArchive(lib, x, es, all, i);
    }
    forall i | 0 <= i < |x.mods|
      ensures RemoteTarget(x.mods[i]) in MapOf(all) &&
              MapOf(all)[RemoteTarget(x.mods[i])] == File(MODE_PLAIN, x.download(x.mods[i]))
    {
      ModReachesArchive(lib, x, es, all, i);
    }
  }

  /**
   The whole build after the installer: what is shipped unpacks to the installer's output, the bundle's instance files,
   the remote mods and the two generated files, each with its own bytes, and to nothing else.
   */
  method Build(lib: Library, packageLib: Package.Library, key: Bytes, x: Inputs)
    returns (r: Result<Package.Built>, ghost order: seq<Entry>)
    requires AcceptedBundle(lib, x.files, x.entries) && TextPaths(x)
    ensures Assembled(lib, x).Ok? ==> DistinctPaths(order) && MapOf(order) == Assembled(lib, x).value
    ensures var all := Package.AllFiles(order, x.runtime, x.launcher);
      r.Ok? <==> Assembled(lib, x).Ok? && all.Ok? && Package.Shippable(packageLib, key, all.value, x.runtime, x.launcher)
    ensures r.Ok? ==> Package.Accepts(packageLib, r.value)
    ensures r.Ok? ==> Package.Unpack(r.value.archive).Ok? && Delivers(x, Package.Unpack(r.value.archive).value)
  {
    hide MapOf, Copied, WithMods, AcceptedBundle, Package.AllFiles, Package.Unpack, Utf8, Package.Accepts,
         Package.Shippable, Delivers, TextPaths;
    r, order := Failed, [];
    var copied := CopyBundleContent(lib, x.output, x.files, x.entries);
    if copied.Failed? {
      return;
    }
    var files := AddRemoteMods(lib, copied.value, x.mods, x.download);
    if files.Failed? {
      return;
    }
    assert Assembled(lib, x) == files;
    var es := List(files.value);
    order := es;
    forall e | e in es ensures Utf8(e.path) {
      var i :| 0 <= i < |es| && es[i] == e;
      assert e.path in MapOf(es);
      AssembledText(lib, x, e.path);
    }
    r := Package.FinishBuild(packageLib, key, es, x.runtime, x.launcher);
    if r.Ok? {
      FinishedDelivers(lib, x, es, Package.AllFiles(es, x.runtime, x.launcher).value);
    }
  }

  // ---------------------------------------------------------------- from the bytes of a bundle

  const MAX_BUNDLE_BYTES: nat := 400 * 1024 * 1024

  /** The listing inside `bundle.json`; its JSON is read by a given function. */
  datatype Reader = Reader(zip: Zip.Library, parse: Bytes -> Result<seq<Listed>>)

  lemma EntryNameIsText(lib: Zip.Library, b: Bytes, centralOffset: nat, logical: nat, at: nat)
    requires ZipReaders.BundleEntry(lib, b, centralOffset, logical, at).Ok?
    ensures Utf8(ZipReaders.BundleEntry(lib, b, centralOffset, logical, at).value.name)
  {
    hide Utf8, Decode;
    DecodedUtf8(ZipReaders.NameBytes(b, Zip.ReadDirectory(b, at), at));
  }

  lemma {:induction false} BundleNames(
    lib: Zip.Library, b: Bytes, centralOffset: nat, at: nat, count: nat, logical: nat, entries: map<Bytes, Bytes>)
    requires ZipReaders.BundleFrom(lib, b, centralOffset, at, count, logical, entries).Ok?
    requires forall p :: p in entries ==> Utf8(p)
    ensures forall p :: p in ZipReaders.BundleFrom(lib, b, centralOffset, at, count, logical, entries).value.entries ==> Utf8(p)
    decreases count
  {
    hide Utf8, ZipReaders.BundleEntry, Zip.ReadDirectory;
    if count > 0 {
      var e := ZipReaders.BundleEntry(lib, b, centralOffset, logical, at).value;
      var dir := Zip.ReadDirectory(b, at);
      EntryNameIsText(lib, b, centralOffset, logical, at);
      BundleNames(lib, b, centralOffset, ZipReaders.Next(dir, at), count - 1, logical + dir.size, entries[e.name := e.data]);
    }
  }

  /** Names in a bundle are decoded, so they are text. */
  lemma ReadNamesAreText(lib: Zip.Library, b: Bytes)
    requires ZipReaders.ReadBundle(lib, b).Ok?
    ensures forall p :: p in ZipReaders.ReadBundle(lib, b).value ==> Utf8(p)
  {
    hide Utf8, ZipReaders.BundleFrom;
    var end: nat := ZipReaders.FindEnd(b, |b| - 22);
    BundleNames(lib, b, Zip.U32(b, end + 16), Zip.U32(b, end + 16), Zip.U16(b, end + 10), 0, map[]);
  }

  /** The listing a bundle carries, and the files behind it. */
  ghost predicate Opens(lib: Library, reader: Reader, archive: Bytes, files: seq<Listed>, entries: map<Path, Bytes>)
  {
    && |archive| <= MAX_BUNDLE_BYTES && ZipReaders.ReadBundle(reader.zip, archive) == Ok(entries)
    && BUNDLE_JSON in entries && reader.parse(entries[BUNDLE_JSON]) == Ok(files)
    && AcceptedBundle(lib, files, entries)
  }

  lemma ListedAreText(lib: Library, reader: Reader, archive: Bytes, files: seq<Listed>, entries: map<Path, Bytes>)
    requires Opens(lib, reader, archive, files, entries)
    ensures forall f :: f in files ==> Utf8(f.path)
  {
    hide Utf8, ZipReaders.ReadBundle, AcceptedBundle;
    ReadNamesAreText(reader.zip, archive);
    BundleBijection(lib, files, entries);
    forall f | f in files ensures f.path in entries {
      var i :| 0 <= i < |files| && files[i] == f;
      assert f.path in PathSet(files);
    }
  }

  /**
   From the bytes of a bundle to the shipped archive. What is written in `x` about the bundle is ignored: listing and
   entries are those of the archive. A bundle that does not open ships nothing.
   */
  method BuildFromArchive(
    lib: Library, reader: Reader, packageLib: Package.Library, key: Bytes, archive: Bytes, x: Inputs)
    returns (r: Result<Package.Built>, ghost y: Inputs, ghost order: seq<Entry>)
    requires (forall p :: p in x.output ==> Utf8(p)) && (forall mod :: mod in x.mods ==> Utf8(mod.filename))
    ensures y == x.(files := y.files, entries := y.entries)
    ensures forall files, entries :: Opens(lib, reader, archive, files, entries) ==> y.files == files && y.entries == entries
    ensures Assembled(lib, y).Ok? && Opens(lib, reader, archive, y.files, y.entries) ==>
      DistinctPaths(order) && MapOf(order) == Assembled(lib, y).value
    ensures var all := Package.AllFiles(order, y.runtime, y.launcher);
      r.Ok? <==>
        && Opens(lib, reader, archive, y.files, y.entries) && Assembled(lib, y).Ok?
        && all.Ok? && Package.Shippable(packageLib, key, all.value, y.runtime, y.launcher)
    ensures r.Ok? ==> Package.Accepts(packageLib, r.value)
    ensures r.Ok? ==> Package.Unpack(r.value.archive).Ok? && Delivers(y, Package.Unpack(r.value.archive).value)
  {
    hide AcceptedBundle, Delivers, Assembled, Package.Unpack, Package.Accepts, Utf8, ZipReaders.ReadBundle, MapOf, Package.AllFiles, Package.Shippable;
    r, y, order := Failed, x, [];
    if |archive| > 419430400 {
      return;
    }
    var entries := ZipCode.ReadBundleZip(reader.zip, archive);
    if entries.Failed? || BUNDLE_JSON !in entries.value {
      return;
    }
    var files := reader.parse(entries.value[BUNDLE_JSON]);
    if files.Failed? {
      return;
    }
    var accepted := ValidateBundle(lib, files.value, entries.value);
    if !accepted {
      return;
    }
    var whole := x.(files := files.value, entries := entries.value);
    y := whole;
    assert Opens(lib, reader, archive, files.value, entries.value);
    ListedAreText(lib, reader, archive, files.value, entries.value);
    r, order := Build(lib, packageLib, key, whole);
  }

  /** For an archive that was written, what is opened is what was written, under the names as they are decoded. */
  lemma WrittenOpens(
    lib: Library, reader: Reader, es: seq<Zip.ZipEntry>, files: seq<Listed>, entries: map<Path, Bytes>)
    requires Zip.WellBehaved(reader.zip) && Zip.Writable(reader.zip, es) && ZipReaders.Names(es)
    requires Opens(lib, reader, Zip.StoredZip(reader.zip, es), files, entries)
    ensures ZipReaders.BundleReadable(ZipReaders.Seen(es)) && entries == ZipReaders.MapOf(ZipReaders.Seen(es))
    ensures |files| == |entries| - 1 && forall f :: f in files ==> Backed(lib, f, entries)
  {
    hide ZipReaders.BundleReadable, ZipReaders.ReadBundle, AcceptedBundle, Zip.WellBehaved, Zip.Writable, ZipReaders.Names, Zip.StoredZip, Backed;
    ZipReaders.BundleRoundTrip(reader.zip, es);
    BundleBijection(lib, files, entries);
  }
}
