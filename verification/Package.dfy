/**
 The end of a reviewed build: the output checks, the package, and the last re-validation of the
 package against its own content record before anything is uploaded.
 */
module Package {
  import opened Bytes
  import opened Sorting
  import opened Text
  import opened Tar
  import opened TarRoundTrip
  import opened Zstd
  import TarCode
  import opened Counting

  const MAX_FILES: nat := 16384
  const MAX_FILE_BYTES: nat := 256 * 1024 * 1024
  const MAX_PACKAGE_INPUT_BYTES: nat := 384 * 1024 * 1024

  /** ".xmcl/runtime.json" and ".xmcl/launch.sh". */
  const RUNTIME: Path := [0x2E, 0x78, 0x6D, 0x63, 0x6C, 0x2F, 0x72, 0x75, 0x6E, 0x74, 0x69, 0x6D, 0x65,
                          0x2E, 0x6A, 0x73, 0x6F, 0x6E]
  const LAUNCH: Path := [0x2E, 0x78, 0x6D, 0x63, 0x6C, 0x2F, 0x6C, 0x61, 0x75, 0x6E, 0x63, 0x68, 0x2E,
                         0x73, 0x68]

  /** A SHA-256 digest; which one a byte string has is up to the library. */
  type Digest = nat

  /** What the source takes from libraries: hashing, the path regular expressions, the JSON check of the
      generated runtime descriptor and launcher. */
  datatype Library = Library(
    sha256: Bytes -> Digest,
    forbidden: Path -> bool,
    generatedFilesAgree: (Bytes, Bytes) -> bool)

  // ---------------------------------------------------------------- sizes

  function Total(sizes: seq<int>): int
  {
    if sizes == [] then 0 else Total(sizes[..|sizes| - 1]) + sizes[|sizes| - 1]
  }

  predicate SizeInRange(size: int)
  {
    0 <= size <= MAX_FILE_BYTES
  }

  ghost predicate WithinLimit(sizes: seq<int>, maximum: int)
  {
    && 1 <= maximum <= MAX_SAFE_INTEGER
    && (forall i :: 0 <= i < |sizes| ==> SizeInRange(sizes[i]))
    && Total(sizes) <= maximum
  }

  lemma {:induction false} TotalGrows(sizes: seq<int>, k: nat)
    requires k <= |sizes|
    requires forall i :: 0 <= i < |sizes| ==> SizeInRange(sizes[i])
    ensures Total(sizes[..k]) <= Total(sizes)
    decreases |sizes|
  {
    if k < |sizes| {
      var most := sizes[..|sizes| - 1];
      TotalGrows(most, k);
      assert most[..k] == sizes[..k];
    } else {
      assert sizes[..k] == sizes;
    }
  }

  /** The running check with early exits decides exactly the limit on the whole. */
  method OutputSizeWithinLimit(sizes: seq<int>, maximum: int) returns (ok: bool)
    ensures ok <==> WithinLimit(sizes, maximum)
  {
    if maximum < 1 || maximum > 9007199254740991 {
      return false;
    }
    var total := 0;
    for k := 0 to |sizes|
      invariant total == Total(sizes[..k]) && 0 <= total <= maximum
      invariant forall i :: 0 <= i < k ==> SizeInRange(sizes[i])
    {
      if sizes[k] < 0 || sizes[k] > 268435456 {
        return false;
      }
      assert sizes[..k + 1][..k] == sizes[..k];
      total := total + sizes[k];
      if total > maximum {
        if forall i :: 0 <= i < |sizes| ==> SizeInRange(sizes[i]) {
          TotalGrows(sizes, k + 1);
        }
        return false;
      }
    }
    assert sizes[..|sizes|] == sizes;
    return true;
  }

  // ---------------------------------------------------------------- output checks

  datatype Meta = Meta(path: Path, sha256: Digest, sizeBytes: int, mode: nat)

  function Sizes(entries: seq<Meta>): (sizes: seq<int>)
    ensures |sizes| == |entries| && forall i :: 0 <= i < |entries| ==> sizes[i] == entries[i].sizeBytes
  {
    seq(|entries|, i requires 0 <= i < |entries| => entries[i].sizeBytes)
  }

  function Describe(lib: Library, e: Entry): Meta
  {
    Meta(e.path, lib.sha256(e.file.data), |e.file.data|, e.file.mode)
  }

  function DescribeAll(lib: Library, es: seq<Entry>): (r: seq<Meta>)
    ensures |r| == |es| && forall i :: 0 <= i < |es| ==> r[i] == Describe(lib, es[i])
  {
    seq(|es|, i requires 0 <= i < |es| => Describe(lib, es[i]))
  }

  predicate AllowedPath(lib: Library, path: Path)
  {
    SafeOutputPath(path) && (path == RUNTIME || path == LAUNCH || !lib.forbidden(path))
  }

  predicate AllowedFile(lib: Library, e: Entry)
  {
    AllowedPath(lib, e.path) && ValidMode(e.file.mode)
  }

  predicate IsRuntime(e: Entry)
  {
    e.path == RUNTIME
  }

  predicate IsLauncher(e: Entry)
  {
    e.path == LAUNCH && e.file.mode == MODE_EXECUTABLE
  }

  /** The files `validateOutputFiles` lets through; their description is returned by the method below. */
  ghost predicate ValidOutput(lib: Library, es: seq<Entry>)
  {
    && 2 <= |es| <= MAX_FILES
    && (forall e :: e in es ==> AllowedFile(lib, e))
    && (exists e :: e in es && IsRuntime(e))
    && (exists e :: e in es && IsLauncher(e))
    && WithinLimit(Sizes(DescribeAll(lib, Sort(EntryLess, es))), MAX_PACKAGE_INPUT_BYTES)
  }

  method ValidateOutputFiles(lib: Library, es: seq<Entry>) returns (r: Result<seq<Meta>>)
    requires DistinctPaths(es)
    ensures r.Ok? <==> ValidOutput(lib, es)
    ensures r.Ok? ==> r.value == DescribeAll(lib, Sort(EntryLess, es))
  {
    hide AllowedPath, MapOf, Sort, WithinLimit, PathLess;
    if |es| < 2 || |es| > 16384 {
      return Failed;
    }
    var sorted := Sort(EntryLess, es);
    SortedEntries(es);
    var entries: seq<Meta> := [];
    var runtime, launch := false, false;
    for k := 0 to |sorted|
      invariant entries == DescribeAll(lib, sorted[..k])
      invariant forall i :: 0 <= i < k ==> AllowedFile(lib, sorted[i])
      invariant runtime <==> exists i :: 0 <= i < k && IsRuntime(sorted[i])
      invariant launch <==> exists i :: 0 <= i < k && IsLauncher(sorted[i])
    {
      var e := sorted[k];
      assert e in es;
      if !AllowedPath(lib, e.path) || (e.file.mode != 420 && e.file.mode != 493) {
        return Failed;
      }
      runtime := runtime || e.path == RUNTIME;
      launch := launch || (e.path == LAUNCH && e.file.mode == 493);
      assert sorted[..k + 1] == sorted[..k] + [e];
      entries := entries + [Meta(e.path, lib.sha256(e.file.data), |e.file.data|, e.file.mode)];
    }
    assert sorted[..|sorted|] == sorted;
    var within := OutputSizeWithinLimit(Sizes(entries), 402653184);
    assert runtime <==> exists e :: e in sorted && IsRuntime(e);
    assert launch <==> exists e :: e in sorted && IsLauncher(e);
    if !runtime || !launch || !within {
      return Failed;
    }
    return Ok(entries);
  }

  // ---------------------------------------------------------------- budgets

  function DataBytes(es: seq<Entry>): nat
  {
    if es == [] then 0 else DataBytes(es[..|es| - 1]) + |es[|es| - 1].file.data|
  }

  lemma {:induction false} TotalIsData(lib: Library, es: seq<Entry>)
    ensures Total(Sizes(DescribeAll(lib, es))) == DataBytes(es)
  {
    if es != [] {
      var most := es[..|es| - 1];
      TotalIsData(lib, most);
      assert Sizes(DescribeAll(lib, es))[..|es| - 1] == Sizes(DescribeAll(lib, most));
    }
  }

  /** Header and padding add at most 1023 bytes to a file. */
  lemma {:induction false} BodySize(es: seq<Entry>)
    ensures |Body(es)| <= DataBytes(es) + 1023 * |es|
  {
    hide Block;
    if es == [] {
    } else {
      var most, e := es[..|es| - 1], es[|es| - 1];
      BodySize(most);
      TarCode.BodyGrows(es, |es| - 1);
      assert es[..|es| - 1 + 1] == es;
      BlockSize(e);
    }
  }

  lemma BlockSize(e: Entry)
    ensures |Block(e)| <= |e.file.data| + 1023
  {
    hide Encodable;
  }

  /** Modes and sizes that pass the output checks fit their octal fields, so only the path can fail. */
  lemma EncodableIfSplits(e: Entry)
    requires ValidMode(e.file.mode) && |e.file.data| <= MAX_FILE_BYTES
    ensures Encodable(e) <==> SplitTarPath(e.path).Ok?
  {
    OctalFits(e.file.mode, 7);
    OctalFits(|e.file.data|, 11);
    assert Pow(8, 7) == 2097152;
    assert Pow(8, 11) == 8589934592;
  }

  ghost predicate AllSplit(es: seq<Entry>)
  {
    forall e :: e in es ==> SplitTarPath(e.path).Ok?
  }

  lemma ValidOutputSizes(lib: Library, es: seq<Entry>)
    requires DistinctPaths(es) && ValidOutput(lib, es)
    ensures forall e :: e in es ==> ValidMode(e.file.mode) && |e.file.data| <= MAX_FILE_BYTES
    ensures DataBytes(Sort(EntryLess, es)) <= MAX_PACKAGE_INPUT_BYTES
  {
    hide AllowedPath, IsRuntime, IsLauncher, MapOf, Sort, Total, PathLess;
    var sorted := Sort(EntryLess, es);
    SortedEntries(es);
    TotalIsData(lib, sorted);
    forall e | e in es ensures ValidMode(e.file.mode) && |e.file.data| <= MAX_FILE_BYTES {
      assert AllowedFile(lib, e);
      assert e in sorted;
      var i :| 0 <= i < |sorted| && sorted[i] == e;
      assert SizeInRange(Sizes(DescribeAll(lib, sorted))[i]);
    }
  }

  lemma ValidOutputEncodable(lib: Library, es: seq<Entry>)
    requires DistinctPaths(es) && ValidOutput(lib, es)
    ensures forall e :: e in es ==> (Encodable(e) <==> SplitTarPath(e.path).Ok?)
  {
    hide Encodable, SplitTarPath, ValidOutput;
    ValidOutputSizes(lib, es);
    forall e | e in es ensures Encodable(e) <==> SplitTarPath(e.path).Ok? {
      EncodableIfSplits(e);
    }
  }

  lemma ValidOutputCount(lib: Library, es: seq<Entry>)
    requires ValidOutput(lib, es)
    ensures |es| <= MAX_FILES
  {
  }

  /** Every output that passes its checks fits the tar budget and the frame budget. */
  lemma BudgetsNeverExceeded(lib: Library, es: seq<Entry>)
    requires DistinctPaths(es) && ValidOutput(lib, es)
    ensures |Body(Sort(EntryLess, es))| + 1024 <= MAX_TAR_BYTES
    ensures PackageTar(es).Ok? <==> AllSplit(es)
    ensures Package(es).Ok? <==> AllSplit(es)
  {
    hide Encodable, SplitTarPath, ValidOutput, MapOf, Body, Frame, Sort, DataBytes, Zeros;
    var sorted := Sort(EntryLess, es);
    SortedEntries(es);
    ValidOutputEncodable(lib, es);
    ValidOutputSizes(lib, es);
    assert |es| <= MAX_FILES by { ValidOutputCount(lib, es); }
    BodySize(sorted);
    if PackageTar(es).Ok? {
      FrameAlwaysFits(PackageTar(es).value);
    }
  }

  // ---------------------------------------------------------------- package and unpack

  /** `packageDeterministicTarZst`. */
  function Package(es: seq<Entry>): (r: Result<Bytes>)
  {
    var tar :- PackageTar(es);
    RawZstd(tar)
  }

  /** `unpackDeterministicTarZst`. */
  function Unpack(archive: Bytes): (r: Result<map<Path, File>>)
  {
    var tar :- Unframe(archive);
    UnpackTar(tar)
  }

  lemma UnpackSeesTar(es: seq<Entry>)
    requires Package(es).Ok?
    ensures Unpack(Package(es).value) == UnpackTar(PackageTar(es).value)
  {
    hide Unframe, UnpackTar, Body, Frame;
    var tar := PackageTar(es).value;
    assert |tar| >= 1024;
    FrameAlwaysFits(tar);
    FrameRoundTrip(tar);
  }

  /** The archive is a function of the file map alone. */
  lemma PackageCanonical(a: seq<Entry>, b: seq<Entry>)
    requires DistinctPaths(a) && DistinctPaths(b) && MapOf(a) == MapOf(b)
    ensures Package(a) == Package(b)
  {
    hide PackageTar, RawZstd;
    PackageTarCanonical(a, b);
  }

  /** Same paths, modes and bytes come back if and only if every path is text safe. */
  lemma PackageRoundTrip(es: seq<Entry>)
    requires DistinctPaths(es)
    requires forall e :: e in es ==> Packable(e)
    requires Package(es).Ok?
    ensures Unpack(Package(es).value) == Ok(MapOf(es)) <==> AllTextSafe(es)
  {
    hide Packable, AllTextSafe, MapOf, RawZstd, UnpackTar;
    UnpackSeesTar(es);
    TarRoundTripExact(es);
  }

  // ---------------------------------------------------------------- validateImmutableContent

  datatype Content = Content(key: Bytes, sha256: Digest, sizeBytes: int, entries: seq<Meta>)
  datatype Built = Built(archive: Bytes, content: Content, runtimeSha256: Digest)

  predicate ValidContentKey(key: Bytes)
  {
    0 < Utf16Length(key) <= 1024 && forall i :: 0 <= i < |key| ==> key[i] >= 0x20 && key[i] != 0x7F
  }

  predicate MetaLess(a: Meta, b: Meta)
  {
    PathLess(a.path, b.path)
  }

  predicate ValidMeta(lib: Library, m: Meta)
  {
    AllowedPath(lib, m.path) && 0 <= m.sizeBytes <= MAX_SAFE_INTEGER && ValidMode(m.mode)
  }

  /** The entry lists `validateEntryMetadata` accepts: strictly sorted by path, within the limits. */
  ghost predicate ValidMetadata(lib: Library, entries: seq<Meta>)
  {
    && 2 <= |entries| <= MAX_FILES
    && (forall i :: 0 <= i < |entries| ==> ValidMeta(lib, entries[i]))
    && Sorted(MetaLess, entries)
    && WithinLimit(Sizes(entries), MAX_PACKAGE_INPUT_BYTES)
  }

  predicate Matches(lib: Library, m: Meta, files: map<Path, File>)
  {
    && m.path in files
    && |files[m.path].data| == m.sizeBytes
    && lib.sha256(files[m.path].data) == m.sha256
    && files[m.path].mode == m.mode
  }

  ghost predicate Accepts(lib: Library, built: Built)
  {
    && ValidContentKey(built.content.key)
    && built.content.sha256 == lib.sha256(built.archive)
    && built.content.sizeBytes == |built.archive|
    && ValidMetadata(lib, built.content.entries)
    && Unpack(built.archive).Ok?
    && var files := Unpack(built.archive).value;
    && |files| == |built.content.entries|
    && (forall i :: 0 <= i < |built.content.entries| ==> Matches(lib, built.content.entries[i], files))
    && RUNTIME in files && LAUNCH in files
    && built.runtimeSha256 == lib.sha256(files[RUNTIME].data)
    && lib.generatedFilesAgree(files[RUNTIME].data, files[LAUNCH].data)
  }

  method ValidateEntryMetadata(lib: Library, entries: seq<Meta>) returns (ok: bool)
    ensures ok <==> ValidMetadata(lib, entries)
  {
    hide AllowedPath;
    if |entries| < 2 || |entries| > 16384 {
      return false;
    }
    PathOrder();
    var previous: Path := [];
    for k := 0 to |entries|
      invariant previous == if k == 0 then [] else entries[k - 1].path
      invariant forall i :: 0 <= i < k ==> ValidMeta(lib, entries[i])
      invariant Sorted(MetaLess, entries[..k])
    {
      var m := entries[k];
      if !AllowedPath(lib, m.path) || m.sizeBytes < 0 || m.sizeBytes > 9007199254740991 || (m.mode != 420 && m.mode != 493) {
        return false;
      }
      if k > 0 {
        ValidMetaNonEmpty(lib, entries[k - 1]);
      }
      if previous != [] && !PathLess(previous, entries[k].path) {
        assert !MetaLess(entries[k - 1], entries[k]);
        return false;
      }
      SortedExtends(entries, k);
      previous := entries[k].path;
    }
    assert entries[..|entries|] == entries;
    ok := OutputSizeWithinLimit(Sizes(entries), 402653184);
  }

  lemma ValidMetaNonEmpty(lib: Library, m: Meta)
    requires ValidMeta(lib, m)
    ensures m.path != []
  {
  }

  lemma SortedExtends(entries: seq<Meta>, k: nat)
    requires k < |entries|
    requires StrictOrder(PathLess)
    requires Sorted(MetaLess, entries[..k])
    requires k > 0 ==> PathLess(entries[k - 1].path, entries[k].path)
    ensures Sorted(MetaLess, entries[..k + 1])
  {
    hide PathLess;
    var s := entries[..k + 1];
    forall i, j | 0 <= i < j < |s| ensures MetaLess(s[i], s[j]) {
      assert forall x :: 0 <= x < k ==> s[x] == entries[..k][x];
      if j == k && i < k - 1 {
        assert MetaLess(entries[..k][i], entries[..k][k - 1]);
      }
    }
  }

  method ValidateImmutableContent(lib: Library, built: Built) returns (ok: bool)
    ensures ok <==> Accepts(lib, built)
  {
    hide ValidMetadata, Unframe, UnpackTar, Utf16Length;
    var content := built.content;
    if Utf16Length(content.key) == 0 || Utf16Length(content.key) > 1024 ||
       (exists i :: 0 <= i < |content.key| && (content.key[i] < 0x20 || content.key[i] == 0x7F)) || content.sha256 != lib.sha256(built.archive) ||
       content.sizeBytes != |built.archive| {
      return false;
    }
    var metadata := ValidateEntryMetadata(lib, content.entries);
    if !metadata {
      return false;
    }
    var tar := ReadRawZstd(built.archive);
    if tar.Failed? {
      return false;
    }
    var unpacked := TarCode.ReadTar(tar.value);
    if unpacked.Failed? || |unpacked.value| != |content.entries| {
      return false;
    }
    var files := unpacked.value;
    for k := 0 to |content.entries|
      invariant forall i :: 0 <= i < k ==> Matches(lib, content.entries[i], files)
    {
      var m := content.entries[k];
      if m.path !in files || |files[m.path].data| != m.sizeBytes || lib.sha256(files[m.path].data) != m.sha256 ||
         files[m.path].mode != m.mode {
        return false;
      }
    }
    return RUNTIME in files && LAUNCH in files && built.runtimeSha256 == lib.sha256(files[RUNTIME].data) &&
           lib.generatedFilesAgree(files[RUNTIME].data, files[LAUNCH].data);
  }

  // ---------------------------------------------------------------- what acceptance means

  function Paths(entries: seq<Meta>): (r: set<Path>)
    ensures forall p :: p in r <==> exists i :: 0 <= i < |entries| && entries[i].path == p
  {
    set i | 0 <= i < |entries| :: entries[i].path
  }

  lemma {:induction false} SortedPathsCount(entries: seq<Meta>)
    requires StrictOrder(PathLess) && Sorted(MetaLess, entries)
    ensures |Paths(entries)| == |entries|
  {
    hide PathLess;
    if entries != [] {
      var most, m := entries[..|entries| - 1], entries[|entries| - 1];
      SortedPathsCount(most);
      assert m.path !in Paths(most) by {
        forall i | 0 <= i < |most| ensures most[i].path != m.path {
          assert MetaLess(entries[i], entries[|entries| - 1]);
          assert !PathLess(m.path, m.path);
        }
      }
      assert forall i :: 0 <= i < |most| ==> entries[i] == most[i];
      assert Paths(entries) == Paths(most) + {m.path};
    }
  }

  /** An accepted archive unpacks to precisely the listed entries: no extra and no missing path. */
  lemma AcceptedIsExact(lib: Library, built: Built)
    requires Accepts(lib, built)
    ensures var files := Unpack(built.archive).value;
      && files.Keys == Paths(built.content.entries)
      && (forall m :: m in built.content.entries ==>
            && m.path in files && |files[m.path].data| == m.sizeBytes && lib.sha256(files[m.path].data) == m.sha256
            && files[m.path].mode == m.mode)
    ensures built.content.sha256 == lib.sha256(built.archive) && built.content.sizeBytes == |built.archive|
  {
    hide Matches, Unpack, ValidMetadata, PathLess;
    var files, entries := Unpack(built.archive).value, built.content.entries;
    ListedCount(lib, entries);
    forall m | m in entries
      ensures m.path in files && |files[m.path].data| == m.sizeBytes && lib.sha256(files[m.path].data) == m.sha256
      ensures files[m.path].mode == m.mode
    {
      var i :| 0 <= i < |entries| && entries[i] == m;
      assert Matches(lib, entries[i], files);
      MatchesPath(lib, m, files);
    }
    assert |files.Keys| == |files|;
    SubsetOfSameSize(Paths(entries), files.Keys);
  }

  lemma ListedCount(lib: Library, entries: seq<Meta>)
    requires ValidMetadata(lib, entries)
    ensures |Paths(entries)| == |entries|
  {
    hide ValidMeta, WithinLimit, PathLess;
    PathOrder();
    SortedPathsCount(entries);
  }

  lemma MatchesPath(lib: Library, m: Meta, files: map<Path, File>)
    requires Matches(lib, m, files)
    ensures m.path in files && |files[m.path].data| == m.sizeBytes && lib.sha256(files[m.path].data) == m.sha256
    ensures files[m.path].mode == m.mode
  {
  }

  /** The record `build` emits for its files. */
  function Record(lib: Library, key: Bytes, es: seq<Entry>, archive: Bytes, runtime: Bytes): Built
  {
    Built(archive, Content(key, lib.sha256(archive), |archive|, DescribeAll(lib, Sort(EntryLess, es))),
          lib.sha256(runtime))
  }

  /** Checked output files that include the generated runtime descriptor and launcher. */
  ghost predicate Emitted(lib: Library, es: seq<Entry>, runtime: Bytes, launcher: Bytes)
  {
    && DistinctPaths(es)
    && ValidOutput(lib, es)
    && (forall e :: e in es ==> Utf8(e.path))
    && Entry(RUNTIME, File(MODE_PLAIN, runtime)) in es
    && Entry(LAUNCH, File(MODE_EXECUTABLE, launcher)) in es
  }

  lemma EmittedPackable(lib: Library, es: seq<Entry>)
    requires DistinctPaths(es) && ValidOutput(lib, es)
    requires forall e :: e in es ==> Utf8(e.path)
    requires AllSplit(es)
    ensures forall e :: e in es ==> Packable(e)
  {
    hide Encodable, SplitTarPath, Utf8, SafePath;
    ValidOutputEncodable(lib, es);
    assert forall e :: e in es ==> AllowedFile(lib, e);
  }

  lemma DescribedMetadata(lib: Library, es: seq<Entry>)
    requires DistinctPaths(es) && ValidOutput(lib, es)
    ensures ValidMetadata(lib, DescribeAll(lib, Sort(EntryLess, es)))
  {
    hide AllowedPath, MapOf, PathLess, Sort, Total, IsRuntime, IsLauncher;
    var sorted := Sort(EntryLess, es);
    var entries := DescribeAll(lib, sorted);
    SortedEntries(es);
    forall i | 0 <= i < |entries| ensures ValidMeta(lib, entries[i]) {
      assert sorted[i] in es && AllowedFile(lib, sorted[i]);
      assert SizeInRange(Sizes(entries)[i]);
    }
    forall i, j | 0 <= i < j < |entries| ensures MetaLess(entries[i], entries[j]) {
      assert EntryLess(sorted[i], sorted[j]);
    }
  }

  /** The unpacked map contains every listed path only if no path lost text. */
  lemma AcceptedLostNothing(lib: Library, key: Bytes, es: seq<Entry>, runtime: Bytes)
    requires DistinctPaths(es)
    requires forall e :: e in es ==> Packable(e)
    requires Package(es).Ok?
    requires Accepts(lib, Record(lib, key, es, Package(es).value, runtime))
    ensures AllTextSafe(es)
  {
    hide Packable, RawZstd, Unpack, TextSafe, UnpackTar, Body, ValidMetadata, WithinLimit, MapOf;
    var sorted := Sort(EntryLess, es);
    var built := Record(lib, key, es, Package(es).value, runtime);
    var files := Unpack(built.archive).value;
    SortedEntries(es);
    UnpackSeesTar(es);
    UnpackReadsBody(sorted);
    forall e | e in sorted ensures e.path in files {
      var i :| 0 <= i < |sorted| && sorted[i] == e;
      MatchesPath(lib, built.content.entries[i], files);
    }
    forall e | e in es ensures TextSafe(e.path) {
      NothingLost(sorted, e, files);
    }
  }

  /**
   The builder's last check accepts its own record if and only if every path is text safe, the
   content key is well formed and the generated files agree with each other.
   */
  lemma RecordAcceptedExactly(lib: Library, key: Bytes, es: seq<Entry>, runtime: Bytes, launcher: Bytes)
    requires Emitted(lib, es, runtime, launcher)
    requires AllSplit(es)
    ensures Package(es).Ok?
    ensures Accepts(lib, Record(lib, key, es, Package(es).value, runtime)) <==>
      AllTextSafe(es) && ValidContentKey(key) && lib.generatedFilesAgree(runtime, launcher)
  {
    hide Encodable, SplitTarPath, Utf8, SafePath, Package, Unpack, TextSafe, ValidContentKey, ValidMetadata, MapOf;
    BudgetsNeverExceeded(lib, es);
    EmittedPackable(lib, es);
    var built := Record(lib, key, es, Package(es).value, runtime);
    if Accepts(lib, built) {
      AcceptedLostNothing(lib, key, es, runtime);
    }
    if AllTextSafe(es) {
      PackageRoundTrip(es);
      DescribedMetadata(lib, es);
      RecordMatches(lib, es);
    }
  }

  lemma DescribedPaths(lib: Library, sorted: seq<Entry>)
    requires Sorted(EntryLess, sorted)
    ensures |MapOf(sorted)| == |sorted|
  {
    hide MapOf, PathLess;
    var entries, files := DescribeAll(lib, sorted), MapOf(sorted);
    PathOrder();
    forall i, j | 0 <= i < j < |entries| ensures MetaLess(entries[i], entries[j]) {
      assert EntryLess(sorted[i], sorted[j]);
    }
    SortedPathsCount(entries);
    assert Paths(entries) == files.Keys;
    assert |files| == |files.Keys|;
  }

  lemma RecordMatches(lib: Library, es: seq<Entry>)
    requires DistinctPaths(es)
    ensures var entries := DescribeAll(lib, Sort(EntryLess, es)); var files := MapOf(es);
      && |files| == |entries|
      && (forall i :: 0 <= i < |entries| ==> Matches(lib, entries[i], files))
      && (forall e :: e in es ==> e.path in files && files[e.path] == e.file)
  {
    hide MapOf, PathLess, Sort;
    var sorted := Sort(EntryLess, es);
    var entries, files := DescribeAll(lib, sorted), MapOf(es);
    SortedEntries(es);
    DescribedPaths(lib, sorted);
    forall i | 0 <= i < |sorted| ensures Matches(lib, entries[i], files) {
      MapOfAt(sorted, i);
    }
    forall e | e in es ensures e.path in files && files[e.path] == e.file {
      var i :| 0 <= i < |es| && es[i] == e;
      MapOfAt(es, i);
    }
  }

  /** `addGeneratedFile`. */
  function AddGenerated(es: seq<Entry>, path: Path, data: Bytes, mode: nat): (r: Result<seq<Entry>>)
    ensures r.Ok? <==> forall e :: e in es ==> e.path != path
    ensures r.Ok? && DistinctPaths(es) ==> DistinctPaths(r.value)
  {
    if exists e :: e in es && e.path == path then Failed
    else
      assert forall i :: 0 <= i < |es| ==> es[i] in es;
      Ok(es + [Entry(path, File(mode, data))])
  }

  /** The files of a build: what the installer, the bundle and the mods left, and the two generated files. */
  function AllFiles(files: seq<Entry>, runtime: Bytes, launcher: Bytes): (r: Result<seq<Entry>>)
    ensures r.Ok? && DistinctPaths(files) ==> DistinctPaths(r.value)
    ensures r.Ok? ==> Entry(RUNTIME, File(MODE_PLAIN, runtime)) in r.value
    ensures r.Ok? ==> Entry(LAUNCH, File(MODE_EXECUTABLE, launcher)) in r.value
    ensures r.Ok? ==> forall e :: e in files ==> e in r.value
    ensures r.Ok? ==> forall e :: e in r.value ==> e in files || e.path == RUNTIME || e.path == LAUNCH
  {
    var withRuntime :- AddGenerated(files, RUNTIME, runtime, MODE_PLAIN);
    AddGenerated(withRuntime, LAUNCH, launcher, MODE_EXECUTABLE)
  }

  /** The condition, on the files before they are packaged, under which a build ships. */
  ghost predicate Shippable(lib: Library, key: Bytes, es: seq<Entry>, runtime: Bytes, launcher: Bytes)
  {
    && ValidOutput(lib, es) && AllSplit(es) && AllTextSafe(es)
    && ValidContentKey(key) && lib.generatedFilesAgree(runtime, launcher)
  }

  /**
   The end of `build`. It ships exactly the shippable files, and whatever it ships unpacks to exactly
   those files, whatever the hash function does.
   */
  method FinishBuild(lib: Library, key: Bytes, files: seq<Entry>, runtime: Bytes, launcher: Bytes)
    returns (r: Result<Built>)
    requires DistinctPaths(files)
    requires forall e :: e in files ==> Utf8(e.path)
    ensures AllFiles(files, runtime, launcher).Failed? ==> r.Failed?
    ensures var all := AllFiles(files, runtime, launcher); all.Ok? ==>
      && (r.Ok? <==> Shippable(lib, key, all.value, runtime, launcher))
      && (r.Ok? ==> Unpack(r.value.archive) == Ok(MapOf(all.value)))
      && (r.Ok? ==> Accepts(lib, r.value))
  {
    hide Utf8, TextSafe, MapOf, Accepts, AllTextSafe, ValidOutput, AllFiles, AllSplit, Unframe, UnpackTar, Frame, Body,
      ValidContentKey, Sort, Encodable;
    var all := AllFiles(files, runtime, launcher);
    if all.Failed? {
      return Failed;
    }
    var es := all.value;
    var entries := ValidateOutputFiles(lib, es);
    if entries.Failed? {
      return Failed;
    }
    assert Emitted(lib, es, runtime, launcher) by { GeneratedUtf8(); }
    BudgetsNeverExceeded(lib, es);
    var tar := TarCode.PackTar(es);
    if tar.Failed? {
      return Failed;
    }
    var archive := WriteRawZstd(tar.value);
    if archive.Failed? {
      return Failed;
    }
    RecordAcceptedExactly(lib, key, es, runtime, launcher);
    EmittedPackable(lib, es);
    PackageRoundTrip(es);
    var built := Record(lib, key, es, archive.value, runtime);
    assert built.content.entries == entries.value;
    var ok := ValidateImmutableContent(lib, built);
    if !ok {
      return Failed;
    }
    return Ok(built);
  }

  // ---------------------------------------------------------------- which builds ship

  lemma {:induction false} DataConcat(a: seq<Entry>, b: seq<Entry>)
    ensures DataBytes(a + b) == DataBytes(a) + DataBytes(b)
    decreases |b|
  {
    if b == [] {
      assert a + b == a;
    } else {
      assert (a + b)[..|a + b| - 1] == a + b[..|b| - 1];
      DataConcat(a, b[..|b| - 1]);
    }
  }

  lemma DataOne(e: Entry)
    ensures DataBytes([e]) == |e.file.data|
  {
    assert [e][..0] == [];
  }

  lemma {:induction false} DataInserted(x: Entry, es: seq<Entry>)
    ensures DataBytes(Insert(EntryLess, x, es)) == |x.file.data| + DataBytes(es)
  {
    hide DataBytes, PathLess;
    DataOne(x);
    if es == [] {
      DataConcat([x], []);
      assert [x] + [] == [x];
    } else if EntryLess(x, es[0]) {
      DataConcat([x], es);
    } else {
      DataInserted(x, es[1..]);
      DataConcat([es[0]], Insert(EntryLess, x, es[1..]));
      DataConcat([es[0]], es[1..]);
      assert es == [es[0]] + es[1..];
    }
  }

  lemma {:induction false} DataSorted(es: seq<Entry>)
    ensures DataBytes(Sort(EntryLess, es)) == DataBytes(es)
  {
    hide DataBytes, EntryLess, Insert;
    if es == [] {
      assert Sort(EntryLess, es) == [];
    } else {
      DataSorted(es[1..]);
      DataInserted(es[0], Sort(EntryLess, es[1..]));
      DataOne(es[0]);
      DataConcat([es[0]], es[1..]);
      assert es == [es[0]] + es[1..];
    }
  }

  /** Sizes within the limits, one by one and together. */
  lemma WithinLimitExactly(lib: Library, es: seq<Entry>)
    requires DistinctPaths(es)
    ensures WithinLimit(Sizes(DescribeAll(lib, Sort(EntryLess, es))), MAX_PACKAGE_INPUT_BYTES) <==>
      (forall e :: e in es ==> |e.file.data| <= 268435456) && DataBytes(es) <= 402653184
  {
    hide Sort, Total, DataBytes, PathLess, MapOf;
    var sorted := Sort(EntryLess, es);
    SortedEntries(es);
    TotalIsData(lib, sorted);
    DataSorted(es);
    var sizes := Sizes(DescribeAll(lib, sorted));
    assert forall i :: 0 <= i < |sorted| ==> sizes[i] == |sorted[i].file.data|;
    if forall e :: e in es ==> |e.file.data| <= 268435456 {
      forall i | 0 <= i < |sizes| ensures SizeInRange(sizes[i]) {
        assert sorted[i] in es;
      }
    }
    if forall i :: 0 <= i < |sizes| ==> SizeInRange(sizes[i]) {
      forall e | e in es ensures |e.file.data| <= 268435456 {
        assert e in sorted;
        var i :| 0 <= i < |sorted| && sorted[i] == e;
        assert SizeInRange(sizes[i]);
      }
    }
  }

  /** ".xmcl/runtime.json" and ".xmcl/launch.sh" are names of their own, and paths that pass. */
  lemma GeneratedPaths()
    ensures RUNTIME == [0x2E, 0x78, 0x6D, 0x63, 0x6C, 0x2F] + [0x72, 0x75, 0x6E, 0x74, 0x69, 0x6D, 0x65, 0x2E, 0x6A, 0x73, 0x6F, 0x6E]
    ensures LAUNCH == [0x2E, 0x78, 0x6D, 0x63, 0x6C, 0x2F] + [0x6C, 0x61, 0x75, 0x6E, 0x63, 0x68, 0x2E, 0x73, 0x68]
    ensures RUNTIME != LAUNCH && SafeOutputPath(RUNTIME) && SafeOutputPath(LAUNCH)
    ensures SplitTarPath(RUNTIME).Ok? && SplitTarPath(LAUNCH).Ok? && TextSafe(RUNTIME) && TextSafe(LAUNCH)
  {
    hide SafeOutputPath, SplitTarPath, TextSafe;
    assert RUNTIME[6] != LAUNCH[6];
    var dir: Bytes := [0x2E, 0x78, 0x6D, 0x63, 0x6C, 0x2F];
    var runtime: Bytes := [0x72, 0x75, 0x6E, 0x74, 0x69, 0x6D, 0x65, 0x2E, 0x6A, 0x73, 0x6F, 0x6E];
    var launch: Bytes := [0x6C, 0x61, 0x75, 0x6E, 0x63, 0x68, 0x2E, 0x73, 0x68];
    PassesInTwo(runtime);
    PassesInTwo(launch);
    assert RUNTIME == dir + runtime && LAUNCH == dir + launch;
  }

  lemma PassesInTwo(name: Bytes)
    requires 2 < |name| <= 90 && (forall i :: 0 <= i < |name| ==> 0x21 <= name[i] < 0x7F && name[i] != SLASH && name[i] != BACKSLASH)
    ensures var path := [0x2E, 0x78, 0x6D, 0x63, 0x6C, 0x2F] + name;
      SafeOutputPath(path) && SplitTarPath(path).Ok? && TextSafe(path)
  {
    hide Text.Split, Utf16Length;
    var dir: Bytes := [0x2E, 0x78, 0x6D, 0x63, 0x6C];
    var path := [0x2E, 0x78, 0x6D, 0x63, 0x6C, 0x2F] + name;
    assert path == dir + [SLASH] + name;
    SplitJoined(dir, SLASH, name);
    SinglePart(dir, SLASH);
    SinglePart(name, SLASH);
    AsciiUnits(path);
    assert path[0] == 0x2E && path[1] == 0x78;
    assert 0 !in path && !(BOM <= path);
  }

  lemma {:induction false} AsciiUnits(b: Bytes)
    requires forall i :: 0 <= i < |b| ==> b[i] < 0x80
    ensures Utf16Length(b) == |b|
  {
    if b != [] {
      AsciiUnits(b[1..]);
    }
  }

  /** A file as the installer, the bundle or a mod may leave it. */
  ghost predicate Ordinary(lib: Library, e: Entry)
  {
    && e.path != RUNTIME && e.path != LAUNCH
    && SafePath(e.path, 255) && !lib.forbidden(e.path)
    && (e.file.mode == 420 || e.file.mode == 493) && |e.file.data| <= 268435456
    && SplitTarPath(e.path).Ok? && TextSafe(e.path)
  }

  /**
   A build ships if and only if its files are ordinary ones, there are at most 16382 of them, all files with the two
   generated ones hold at most 384 MiB, the key is short and without control characters, and the generated files agree.
   */
  lemma BuildShipsExactly(lib: Library, key: Bytes, files: seq<Entry>, runtime: Bytes, launcher: Bytes)
    requires DistinctPaths(files)
    ensures var all := AllFiles(files, runtime, launcher);
      (all.Ok? && Shippable(lib, key, all.value, runtime, launcher)) <==>
        && |files| <= 16382 && (forall e :: e in files ==> Ordinary(lib, e))
        && |runtime| <= 268435456 && |launcher| <= 268435456
        && DataBytes(files) + |runtime| + |launcher| <= 402653184
        && 0 < Utf16Length(key) <= 1024 && (forall i :: 0 <= i < |key| ==> !(key[i] <= 0x1F || key[i] == 0x7F))
        && lib.generatedFilesAgree(runtime, launcher)
  {
    hide SafePath, SplitTarPath, TextSafe, DataBytes, Shippable, Utf16Length, Ordinary, AllFiles;
    GeneratedPaths();
    var all := AllFiles(files, runtime, launcher);
    AllFilesExactly(files, runtime, launcher);
    if all.Ok? {
      ShippableExactly(lib, key, files, all.value, runtime, launcher);
    } else {
      var e :| e in files && (e.path == RUNTIME || e.path == LAUNCH);
      NotOrdinary(lib, e);
    }
  }

  lemma NotOrdinary(lib: Library, e: Entry)
    requires e.path == RUNTIME || e.path == LAUNCH
    ensures !Ordinary(lib, e)
  {
  }

  lemma AllFilesExactly(files: seq<Entry>, runtime: Bytes, launcher: Bytes)
    requires RUNTIME != LAUNCH
    ensures var all := AllFiles(files, runtime, launcher);
      && (all.Ok? <==> forall e :: e in files ==> e.path != RUNTIME && e.path != LAUNCH)
      && (all.Ok? ==>
            all.value == files + [Entry(RUNTIME, File(MODE_PLAIN, runtime))] + [Entry(LAUNCH, File(MODE_EXECUTABLE, launcher))])
  {
    hide RUNTIME, LAUNCH;
    var r := Entry(RUNTIME, File(MODE_PLAIN, runtime));
    if AddGenerated(files, RUNTIME, runtime, MODE_PLAIN).Ok? {
      assert forall e :: e in files + [r] <==> e in files || e == r;
    }
  }

  lemma OutputExactly(lib: Library, files: seq<Entry>, es: seq<Entry>, runtime: Bytes, launcher: Bytes)
    requires DistinctPaths(files) && AllFiles(files, runtime, launcher) == Ok(es)
    ensures ValidOutput(lib, es) && AllSplit(es) && AllTextSafe(es) <==>
        && |files| <= 16382 && (forall e :: e in files ==> Ordinary(lib, e))
        && |runtime| <= 268435456 && |launcher| <= 268435456
        && DataBytes(files) + |runtime| + |launcher| <= 402653184
  {
    hide SafePath, SplitTarPath, TextSafe, DataBytes, Sort, WithinLimit, Sizes, DescribeAll, AllFiles, Ordinary,
         AllowedFile, AllSplit, AllTextSafe, RUNTIME, LAUNCH, DistinctPaths;
    GeneratedPaths();
    AllFilesExactly(files, runtime, launcher);
    var r, l := Entry(RUNTIME, File(MODE_PLAIN, runtime)), Entry(LAUNCH, File(MODE_EXECUTABLE, launcher));
    WithinLimitExactly(lib, es);
    DataConcat(files + [r], [l]);
    DataConcat(files, [r]);
    DataOne(r);
    DataOne(l);
    assert IsRuntime(r) && IsLauncher(l) && r in es && l in es;
    AllOrdinary(lib, files, es, r, l);
  }

  lemma ShippableExactly(lib: Library, key: Bytes, files: seq<Entry>, es: seq<Entry>, runtime: Bytes, launcher: Bytes)
    requires DistinctPaths(files) && AllFiles(files, runtime, launcher) == Ok(es)
    ensures Shippable(lib, key, es, runtime, launcher) <==>
        && |files| <= 16382 && (forall e :: e in files ==> Ordinary(lib, e))
        && |runtime| <= 268435456 && |launcher| <= 268435456
        && DataBytes(files) + |runtime| + |launcher| <= 402653184
        && 0 < Utf16Length(key) <= 1024 && (forall i :: 0 <= i < |key| ==> !(key[i] <= 0x1F || key[i] == 0x7F))
        && lib.generatedFilesAgree(runtime, launcher)
  {
    hide ValidOutput, AllSplit, AllTextSafe, DataBytes, AllFiles, Ordinary, Utf16Length, DistinctPaths;
    OutputExactly(lib, files, es, runtime, launcher);
  }

  lemma AllOrdinary(lib: Library, files: seq<Entry>, es: seq<Entry>, r: Entry, l: Entry)
    requires es == files + [r] + [l]
    requires r.path == RUNTIME && l.path == LAUNCH && r.file.mode == MODE_PLAIN && l.file.mode == MODE_EXECUTABLE
    requires SafeOutputPath(RUNTIME) && SafeOutputPath(LAUNCH) && SplitTarPath(RUNTIME).Ok? && SplitTarPath(LAUNCH).Ok?
    requires TextSafe(RUNTIME) && TextSafe(LAUNCH) && forall e :: e in files ==> e.path != RUNTIME && e.path != LAUNCH
    ensures (&& (forall e :: e in es ==> AllowedFile(lib, e)) && AllSplit(es) && AllTextSafe(es)
             && (forall e :: e in es ==> |e.file.data| <= 268435456)) <==>
      (forall e :: e in files ==> Ordinary(lib, e)) && |r.file.data| <= 268435456 && |l.file.data| <= 268435456
  {
    hide SafePath, SplitTarPath, TextSafe;
    assert r in es && l in es && forall e :: e in es <==> e in files || e == r || e == l;
  }

  lemma GeneratedUtf8()
    ensures Utf8(RUNTIME) && Utf8(LAUNCH)
  {
    hide Utf8;
    AsciiUtf8(RUNTIME);
    AsciiUtf8(LAUNCH);
  }
}
