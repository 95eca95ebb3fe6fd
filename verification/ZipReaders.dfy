/** The three ZIP readers, what each recovers from a written archive, and the installer rewrite. */
module ZipReaders {
  import opened Bytes
  import opened Text
  import opened Zip

  const MAX_BUNDLE_ENTRIES: nat := 4096
  const MAX_ENTRY_BYTES: nat := 64 * 1024 * 1024
  const MAX_LOGICAL_BYTES: nat := 384 * 1024 * 1024
  const END_SEARCH: nat := 65557

  function Lowest(b: Bytes): nat
  {
    if |b| >= END_SEARCH then |b| - END_SEARCH else 0
  }

  function Unpacked(lib: Library, dir: Directory, compressed: Bytes): (r: Result<Bytes>)
  {
    if dir.method' == 0 then Ok(compressed) else if dir.method' == 8 then lib.inflate(compressed) else Failed
  }

  function DataStart(b: Bytes, dir: Directory): nat
  {
    dir.local + 30 + U16(b, dir.local + 26) + U16(b, dir.local + 28)
  }

  function Next(dir: Directory, at: nat): nat
  {
    at + 46 + dir.nameLength + dir.extraLength + dir.commentLength
  }

  function NameBytes(b: Bytes, dir: Directory, at: nat): Bytes
  {
    Sub(b, at + 46, at + 46 + dir.nameLength)
  }

  // ---------------------------------------------------------------- the installer's reader

  predicate InstallerName(name: Bytes)
  {
    BACKSLASH !in name && (name != [] ==> name[0] != SLASH) && [DOT, DOT] !in Parts(name)
  }

  function InstallerEntry(lib: Library, b: Bytes, at: nat): (r: Result<ZipEntry>)
  {
    if U32(b, at) != CENTRAL_SIGNATURE then Failed
    else
      var dir := ReadDirectory(b, at);
      var name :- Decode(NameBytes(b, dir, at));
      if U32(b, dir.local) != LOCAL_SIGNATURE || !InstallerName(name) then Failed
      else
        var start := DataStart(b, dir);
        var data :- Unpacked(lib, dir, Sub(b, start, start + dir.compressedSize));
        if |data| != dir.size then Failed else Ok(ZipEntry(name, data))
  }

  function InstallerFrom(
    lib: Library, b: Bytes, at: nat, count: nat, entries: seq<ZipEntry>): (r: Result<seq<ZipEntry>>)
    decreases count
  {
    if count == 0 then Ok(entries)
    else
      var e :- InstallerEntry(lib, b, at);
      InstallerFrom(lib, b, Next(ReadDirectory(b, at), at), count - 1, entries + [e])
  }

  /** The last end-of-directory signature at or before `end`, as far back as readers look. */
  function FindEnd(b: Bytes, end: nat): (r: int)
    ensures r == -1 || 0 <= r <= end
    decreases end
  {
    if end < Lowest(b) then -1
    else if U32(b, end) == END_SIGNATURE then end
    else if end == 0 then -1
    else FindEnd(b, end - 1)
  }

  /** `readZip` of the sandbox. */
  function ReadInstaller(lib: Library, b: Bytes): (r: Result<seq<ZipEntry>>)
  {
    if |b| < 22 || FindEnd(b, |b| - 22) < 0 then Failed
    else
      var end: nat := FindEnd(b, |b| - 22);
      InstallerFrom(lib, b, U32(b, end + 16), U16(b, end + 10), [])
  }

  // ---------------------------------------------------------------- the bundle's reader

  predicate SafeZipPath(path: Bytes)
  {
    SafePath(path, 1024)
  }

  function BundleEntry(lib: Library, b: Bytes, centralOffset: nat, logical: nat, at: nat): (r: Result<ZipEntry>)
  {
    if at + 46 > |b| || U32(b, at) != CENTRAL_SIGNATURE then Failed
    else
      var dir := ReadDirectory(b, at);
      if Next(dir, at) > |b| || dir.flags % 2 == 1 || (dir.method' != 0 && dir.method' != 8) ||
        dir.size > MAX_ENTRY_BYTES || logical + dir.size > MAX_LOGICAL_BYTES ||
        (dir.size > 0 && (dir.compressedSize == 0 || dir.size > 100 * dir.compressedSize)) then Failed
      else
        var path :- Decode(NameBytes(b, dir, at));
        if !SafeZipPath(path) || dir.local + 30 > centralOffset || U32(b, dir.local) != LOCAL_SIGNATURE then Failed
        else
          var start := DataStart(b, dir);
          if start + dir.compressedSize > centralOffset then Failed
          else
            var data :- Unpacked(lib, dir, Sub(b, start, start + dir.compressedSize));
            if |data| != dir.size || lib.crc32(data) != dir.crc then Failed else Ok(ZipEntry(path, data))
  }

  datatype Bundle = Bundle(entries: map<Bytes, Bytes>, cursor: nat)

  function BundleFrom(lib: Library, b: Bytes, centralOffset: nat, at: nat, count: nat, logical: nat,
                      entries: map<Bytes, Bytes>): (r: Result<Bundle>)
    decreases count
  {
    if count == 0 then Ok(Bundle(entries, at))
    else
      var e :- BundleEntry(lib, b, centralOffset, logical, at);
      if e.name in entries then Failed
      else
        var dir := ReadDirectory(b, at);
        BundleFrom(lib, b, centralOffset, Next(dir, at), count - 1, logical + dir.size, entries[e.name := e.data])
  }

  /** `readZip` of the bundle validator. */
  function ReadBundle(lib: Library, b: Bytes): (r: Result<map<Bytes, Bytes>>)
  {
    if |b| < 22 || FindEnd(b, |b| - 22) < 0 then Failed
    else
      var end: nat := FindEnd(b, |b| - 22);
      var count, size, offset := U16(b, end + 10), U32(b, end + 12), U32(b, end + 16);
      if U16(b, end + 4) != 0 || U16(b, end + 6) != 0 || count > MAX_BUNDLE_ENTRIES || offset + size > end then Failed
      else
        var bundle :- BundleFrom(lib, b, offset, offset, count, 0, map[]);
        if bundle.cursor != offset + size then Failed else Ok(bundle.entries)
  }

  // ---------------------------------------------------------------- the catalog's reader

  datatype Search = Found(data: Bytes) | Missing | Threw

  /** The search for `path` in one directory; anything malformed ends it without a result. */
  function SearchFrom(lib: Library, b: Bytes, path: Bytes, at: nat, count: nat): (r: Search)
    decreases count
  {
    if count == 0 || U32(b, at) != CENTRAL_SIGNATURE then Missing
    else
      var dir := ReadDirectory(b, at);
      match Decode(NameBytes(b, dir, at))
      case Failed => Threw
      case Ok(name) =>
        if name != path then SearchFrom(lib, b, path, Next(dir, at), count - 1)
        else if U32(b, dir.local) != LOCAL_SIGNATURE then Missing
        else
          var start := DataStart(b, dir);
          if dir.method' != 0 && dir.method' != 8 then Missing
          else
            match Unpacked(lib, dir, Sub(b, start, start + dir.compressedSize))
            case Failed => Threw
            case Ok(data) => if |data| != dir.size then Missing else Found(data)
  }

  function CatalogFrom(lib: Library, b: Bytes, path: Bytes, end: nat): (r: Result<Bytes>)
    decreases end
  {
    if end < Lowest(b) then Failed
    else
      var found := if U32(b, end) != END_SIGNATURE then Missing
                   else SearchFrom(lib, b, path, U32(b, end + 16), U16(b, end + 10));
      match found
      case Found(data) => Ok(data)
      case Threw => Failed
      case Missing => if end == 0 then Failed else CatalogFrom(lib, b, path, end - 1)
  }

  /** `readZipEntry` of the toolchain catalog. */
  function ReadCatalogEntry(lib: Library, b: Bytes, path: Bytes): (r: Result<Bytes>)
  {
    if |b| < 22 then Failed else CatalogFrom(lib, b, path, |b| - 22)
  }

  // ---------------------------------------------------------------- one written entry, as each reader sees it

  ghost predicate Names(es: seq<ZipEntry>)
  {
    forall k :: 0 <= k < |es| ==> Utf8(es[k].name)
  }

  /** The pieces shared by all readers. */
  lemma SeenByAll(lib: Library, es: seq<ZipEntry>, k: nat)
    requires WellBehaved(lib) && Writable(lib, es) && Names(es) && k < |es|
    ensures var z, e, at := StoredZip(lib, es), es[k], CentralAt(lib, es, k); var dir := ReadDirectory(z, at);
      && U32(z, at) == CENTRAL_SIGNATURE && U32(z, dir.local) == LOCAL_SIGNATURE
      && dir == Directory(UTF8_FLAG, 0, lib.crc32(e.data), |e.data|, |e.data|, |e.name|, 0, 0, LocalAt(lib, es, k))
      && Next(dir, at) == CentralAt(lib, es, k + 1)
      && Decode(NameBytes(z, dir, at)) == Ok(StripBom(e.name))
      && Sub(z, DataStart(z, dir), DataStart(z, dir) + |e.data|) == e.data
      && DataStart(z, dir) + |e.data| <= |Locals(lib, es)|
      && dir.local + 30 <= |Locals(lib, es)|
      && at + 46 <= |z| && Next(dir, at) <= |z|
  {
    hide Utf8, U16, U32, StoredZip, LocalAt, CentralAt, ReadDirectory, Locals, Centrals, Writable, WellBehaved, Sub, StripBom,
         CentralRest, LocalFields;
    var z, e, at, local := StoredZip(lib, es), es[k], CentralAt(lib, es, k), LocalAt(lib, es, k);
    EntryLayout(lib, es, k);
    SplitAt(lib, es, k);
    LocalSays(z, local, lib.crc32(e.data), |e.data|, |e.name|);
    SubIs(z, at + 46, at + 46 + |e.name|);
    SubIs(z, local + 30 + |e.name|, local + 30 + |e.name| + |e.data|);
  }

  lemma LocalSays(b: Bytes, at: nat, crc: nat, size: nat, nameLength: nat)
    requires LocalFields(b, at, crc, size, nameLength)
    ensures U32(b, at) == LOCAL_SIGNATURE && U16(b, at + 26) == nameLength && U16(b, at + 28) == 0
  {
  }

  lemma SubIs(b: Bytes, lo: nat, hi: nat)
    requires lo <= hi <= |b|
    ensures Sub(b, lo, hi) == b[lo..hi]
  {
  }

  lemma EndSeen(lib: Library, es: seq<ZipEntry>)
    requires Writable(lib, es)
    ensures var z := StoredZip(lib, es); |z| >= 22 && FindEnd(z, |z| - 22) == |z| - 22
  {
    hide U16, U32, Locals, Centrals;
    EndLayout(lib, es);
  }

  // ---------------------------------------------------------------- installer round trip

  /** What the installer's reader gives back for entries `k` on. */
  function Stripped(es: seq<ZipEntry>, k: nat, entries: seq<ZipEntry>): (r: Result<seq<ZipEntry>>)
    requires k <= |es|
    decreases |es| - k
  {
    if k == |es| then Ok(entries)
    else if !InstallerName(StripBom(es[k].name)) then Failed
    else Stripped(es, k + 1, entries + [ZipEntry(StripBom(es[k].name), es[k].data)])
  }

  lemma {:induction false} InstallerReads(lib: Library, es: seq<ZipEntry>, k: nat, entries: seq<ZipEntry>)
    requires WellBehaved(lib) && Writable(lib, es) && Names(es) && k <= |es|
    ensures InstallerFrom(lib, StoredZip(lib, es), CentralAt(lib, es, k), |es| - k, entries) == Stripped(es, k, entries)
    decreases |es| - k
  {
    hide Utf8, U16, U32, StoredZip, CentralAt, LocalAt, ReadDirectory, InstallerName, NameBytes, DataStart, Next, Sub,
      Writable, WellBehaved, Names, Decode, Locals;
    if k < |es| {
      SeenByAll(lib, es, k);
      var name := StripBom(es[k].name);
      if InstallerName(name) {
        InstallerReads(lib, es, k + 1, entries + [ZipEntry(name, es[k].data)]);
      }
    }
  }

  ghost predicate BomFree(es: seq<ZipEntry>)
  {
    forall k :: 0 <= k < |es| ==> !(BOM <= es[k].name)
  }

  ghost predicate InstallerNames(es: seq<ZipEntry>)
  {
    forall k :: 0 <= k < |es| ==> InstallerName(es[k].name)
  }

  lemma {:induction false} StrippedExact(es: seq<ZipEntry>, k: nat, entries: seq<ZipEntry>)
    requires InstallerNames(es) && k <= |es| && |entries| == k
    requires entries == es[..k]
    ensures Stripped(es, k, entries) == Ok(es) <==> forall i :: k <= i < |es| ==> !(BOM <= es[i].name)
    decreases |es| - k
  {
    hide InstallerName;
    if k == |es| {
      assert es[..k] == es;
    } else {
      var name := StripBom(es[k].name);
      var entries' := entries + [ZipEntry(name, es[k].data)];
      if BOM <= es[k].name {
        if InstallerName(name) {
          StrippedKeeps(es, k + 1, entries');
          assert name != es[k].name;
        }
      } else {
        assert es[..k + 1] == entries';
        StrippedExact(es, k + 1, entries');
      }
    }
  }

  lemma {:induction false} StrippedKeeps(es: seq<ZipEntry>, k: nat, entries: seq<ZipEntry>)
    requires k <= |es|
    ensures Stripped(es, k, entries).Ok? ==> entries <= Stripped(es, k, entries).value
    decreases |es| - k
  {
    hide InstallerName;
    if k < |es| && InstallerName(StripBom(es[k].name)) {
      StrippedKeeps(es, k + 1, entries + [ZipEntry(StripBom(es[k].name), es[k].data)]);
    }
  }

  /** The installer's reader recovers the entries, in order, exactly when no name starts with a BOM. */
  lemma InstallerRoundTrip(lib: Library, es: seq<ZipEntry>)
    requires WellBehaved(lib) && Writable(lib, es) && Names(es) && InstallerNames(es)
    ensures ReadInstaller(lib, StoredZip(lib, es)) == Ok(es) <==> BomFree(es)
  {
    hide U16, U32, StoredZip, CentralAt, InstallerFrom, Stripped, Writable, WellBehaved, Names, InstallerNames, FindEnd;
    EndSeen(lib, es);
    EndLayout(lib, es);
    WholeAt(lib, es);
    InstallerReads(lib, es, 0, []);
    StrippedExact(es, 0, []);
  }

  // ---------------------------------------------------------------- bundle round trip

  function DataTotal(es: seq<ZipEntry>): nat
  {
    if es == [] then 0 else DataTotal(es[..|es| - 1]) + |es[|es| - 1].data|
  }

  function MapOf(es: seq<ZipEntry>): (m: map<Bytes, Bytes>)
  {
    if es == [] then map[] else MapOf(es[..|es| - 1])[es[|es| - 1].name := es[|es| - 1].data]
  }

  /** Entry `k` passes the bundle reader, given the entries before it. */
  predicate Fits(es: seq<ZipEntry>, k: nat)
    requires k < |es|
  {
    && SafeZipPath(es[k].name)
    && |es[k].data| <= MAX_ENTRY_BYTES
    && DataTotal(es[..k]) + |es[k].data| <= MAX_LOGICAL_BYTES
    && es[k].name !in MapOf(es[..k])
  }

  /** The entries as decoded names show them: a leading BOM is gone. */
  function Seen(es: seq<ZipEntry>): (r: seq<ZipEntry>)
    ensures |r| == |es|
  {
    seq(|es|, i requires 0 <= i < |es| => ZipEntry(StripBom(es[i].name), es[i].data))
  }

  lemma BomFreeSeen(es: seq<ZipEntry>)
    ensures BomFree(es) ==> Seen(es) == es
  {
  }

  lemma BundleEntrySeen(lib: Library, es: seq<ZipEntry>, k: nat)
    requires WellBehaved(lib) && Writable(lib, es) && Names(es) && k < |es|
    ensures var z, seen := StoredZip(lib, es), Seen(es); var at, logical := CentralAt(lib, es, k), DataTotal(seen[..k]);
      BundleEntry(lib, z, |Locals(lib, es)|, logical, at) ==
        if SafeZipPath(seen[k].name) && |seen[k].data| <= MAX_ENTRY_BYTES && logical + |seen[k].data| <= MAX_LOGICAL_BYTES
        then Ok(seen[k]) else Failed
  {
    hide Utf8, U16, U32, StoredZip, CentralAt, LocalAt, ReadDirectory, SafePath, NameBytes, DataStart, Next, Sub,
      Writable, WellBehaved, Names, Decode, Locals, DataTotal;
    SeenByAll(lib, es, k);
  }

  /** One turn of the bundle reader's loop over a written entry. */
  lemma BundleStep(lib: Library, es: seq<ZipEntry>, k: nat)
    requires WellBehaved(lib) && Writable(lib, es) && Names(es) && k < |es|
    ensures var z, locals, seen := StoredZip(lib, es), |Locals(lib, es)|, Seen(es);
      BundleFrom(lib, z, locals, CentralAt(lib, es, k), |es| - k, DataTotal(seen[..k]), MapOf(seen[..k])) ==
        if Fits(seen, k)
        then BundleFrom(lib, z, locals, CentralAt(lib, es, k + 1), |es| - (k + 1), DataTotal(seen[..k + 1]), MapOf(seen[..k + 1]))
        else Failed
  {
    hide U16, U32, StoredZip, CentralAt, LocalAt, SafePath, Next, Writable, WellBehaved, Names, Locals,
      BundleEntry, ReadDirectory, NameBytes, DataStart, Decode, Sub;
    BundleEntrySeen(lib, es, k);
    SeenByAll(lib, es, k);
    assert Seen(es)[..k + 1][..k] == Seen(es)[..k];
  }

  lemma BundleDone(lib: Library, b: Bytes, centralOffset: nat, at: nat, logical: nat, entries: map<Bytes, Bytes>)
    ensures BundleFrom(lib, b, centralOffset, at, 0, logical, entries) == Ok(Bundle(entries, at))
  {
  }

  predicate AllFit(es: seq<ZipEntry>, k: nat)
    requires k <= |es|
    decreases |es| - k
  {
    k == |es| || (Fits(es, k) && AllFit(es, k + 1))
  }

  lemma {:induction false} AllFitMeans(es: seq<ZipEntry>, k: nat)
    requires k <= |es|
    ensures AllFit(es, k) <==> forall i :: k <= i < |es| ==> Fits(es, i)
    decreases |es| - k
  {
    hide Fits;
    if k < |es| {
      AllFitMeans(es, k + 1);
    }
  }

  lemma {:induction false} BundleReads(lib: Library, es: seq<ZipEntry>, k: nat)
    requires WellBehaved(lib) && Writable(lib, es) && Names(es) && k <= |es|
    ensures BundleFrom(lib, StoredZip(lib, es), |Locals(lib, es)|, CentralAt(lib, es, k), |es| - k, DataTotal(Seen(es)[..k]),
                       MapOf(Seen(es)[..k])) ==
      if AllFit(Seen(es), k) then Ok(Bundle(MapOf(Seen(es)), CentralAt(lib, es, |es|))) else Failed
    decreases |es| - k
  {
    hide StoredZip, CentralAt, Writable, WellBehaved, Names, Locals, MapOf, DataTotal, Fits, BundleFrom, Seen;
    if k == |es| {
      assert Seen(es)[..k] == Seen(es);
      BundleDone(lib, StoredZip(lib, es), |Locals(lib, es)|, CentralAt(lib, es, k), DataTotal(Seen(es)), MapOf(Seen(es)));
    } else {
      BundleStep(lib, es, k);
      BundleReads(lib, es, k + 1);
    }
  }

  /** The archives the bundle reader takes: few, small, distinct and safely named entries. */
  ghost predicate BundleReadable(es: seq<ZipEntry>)
  {
    |es| <= MAX_BUNDLE_ENTRIES && forall i :: 0 <= i < |es| ==> Fits(es, i)
  }

  /**
   The bundle reader accepts exactly the archives that are readable by their decoded names, and recovers their
   contents under these names.
   */
  lemma BundleRoundTrip(lib: Library, es: seq<ZipEntry>)
    requires WellBehaved(lib) && Writable(lib, es) && Names(es)
    ensures ReadBundle(lib, StoredZip(lib, es)) == if BundleReadable(Seen(es)) then Ok(MapOf(Seen(es))) else Failed
  {
    hide U16, U32, CentralAt, BundleFrom, Writable, WellBehaved, Names, FindEnd, Locals, Centrals, MapOf,
      Fits, AllFit, Seen;
    EndSeen(lib, es);
    EndLayout(lib, es);
    WholeAt(lib, es);
    assert Seen(es)[..0] == [];
    assert MapOf([]) == map[] by { EmptyMap(); }
    BundleReads(lib, es, 0);
    AllFitMeans(Seen(es), 0);
  }

  lemma EmptyMap()
    ensures MapOf([]) == map[]
  {
  }

  // ---------------------------------------------------------------- catalog look-up

  /** The first entry from `k` on with the wanted name, as decoded names show it. */
  function Lookup(es: seq<ZipEntry>, path: Bytes, k: nat): Search
    requires k <= |es|
    decreases |es| - k
  {
    if k == |es| then Missing else if es[k].name == path then Found(es[k].data) else Lookup(es, path, k + 1)
  }

  lemma {:induction false} LookupFirst(es: seq<ZipEntry>, path: Bytes, k: nat)
    requires k <= |es|
    ensures Lookup(es, path, k) == Missing <==> forall i :: k <= i < |es| ==> es[i].name != path
    ensures forall i :: k <= i < |es| && es[i].name == path && (forall j :: k <= j < i ==> es[j].name != path) ==>
      Lookup(es, path, k) == Found(es[i].data)
    decreases |es| - k
  {
    if k < |es| {
      LookupFirst(es, path, k + 1);
    }
  }

  lemma {:induction false} SearchReads(lib: Library, es: seq<ZipEntry>, path: Bytes, k: nat)
    requires WellBehaved(lib) && Writable(lib, es) && Names(es) && k <= |es|
    ensures SearchFrom(lib, StoredZip(lib, es), path, CentralAt(lib, es, k), |es| - k) == Lookup(Seen(es), path, k)
    decreases |es| - k
  {
    hide Utf8, U16, U32, StoredZip, CentralAt, LocalAt, ReadDirectory, NameBytes, DataStart, Next, Sub,
      Writable, WellBehaved, Names, Decode, Locals;
    if k < |es| {
      SeenByAll(lib, es, k);
      SearchReads(lib, es, path, k + 1);
    }
  }

  /** No further end signature in the part of the archive that readers search. */
  ghost predicate OneEnd(b: Bytes)
    requires |b| >= 22
  {
    forall at :: Lowest(b) <= at < |b| - 22 ==> U32(b, at) != END_SIGNATURE
  }

  lemma {:induction false} NothingBefore(lib: Library, b: Bytes, path: Bytes, end: nat)
    requires |b| >= 22 && OneEnd(b) && end < |b| - 22
    ensures CatalogFrom(lib, b, path, end) == Failed
    decreases end
  {
    hide U32, SearchFrom;
    if end > 0 && end >= Lowest(b) {
      NothingBefore(lib, b, path, end - 1);
    }
  }

  /**
   The catalog's reader returns the first entry whose decoded name is the one it is asked for. Without one it goes on
   to look for an earlier end of directory, and fails where there is none.
   */
  lemma CatalogRoundTrip(lib: Library, es: seq<ZipEntry>, path: Bytes)
    requires WellBehaved(lib) && Writable(lib, es) && Names(es)
    ensures forall i :: 0 <= i < |es| && Seen(es)[i].name == path && (forall j :: 0 <= j < i ==> Seen(es)[j].name != path) ==>
      ReadCatalogEntry(lib, StoredZip(lib, es), path) == Ok(es[i].data)
    ensures (forall i :: 0 <= i < |es| ==> Seen(es)[i].name != path) && OneEnd(StoredZip(lib, es)) ==>
      ReadCatalogEntry(lib, StoredZip(lib, es), path) == Failed
  {
    hide U16, U32, StoredZip, CentralAt, SearchFrom, Writable, WellBehaved, Names, FindEnd, Locals, Seen, Lookup, OneEnd;
    var z := StoredZip(lib, es);
    EndSeen(lib, es);
    EndLayout(lib, es);
    WholeAt(lib, es);
    SearchReads(lib, es, path, 0);
    LookupFirst(Seen(es), path, 0);
    SeenData(es);
    if |z| > 22 && OneEnd(z) {
      NothingBefore(lib, z, path, |z| - 23);
    }
  }

  lemma SeenData(es: seq<ZipEntry>)
    ensures forall i :: 0 <= i < |es| ==> Seen(es)[i].data == es[i].data
  {
  }

  lemma {:induction false} MapOfHas(es: seq<ZipEntry>, k: nat)
    requires k < |es|
    ensures es[k].name in MapOf(es)
    decreases |es|
  {
    if k < |es| - 1 {
      MapOfHas(es[..|es| - 1], k);
    }
  }

  lemma {:induction false} MapOfAt(es: seq<ZipEntry>, k: nat)
    requires k < |es| && forall i :: k < i < |es| ==> es[i].name != es[k].name
    ensures es[k].name in MapOf(es) && MapOf(es)[es[k].name] == es[k].data
    decreases |es|
  {
    if k < |es| - 1 {
      var most := es[..|es| - 1];
      assert forall i :: 0 <= i < |most| ==> most[i] == es[i];
      MapOfAt(most, k);
    }
  }

  /** All three readers agree on every archive of safe, distinct, BOM-free names within the limits. */
  lemma ReadersAgree(lib: Library, es: seq<ZipEntry>, k: nat)
    requires WellBehaved(lib) && Writable(lib, es) && Names(es) && BomFree(es) && InstallerNames(es)
    requires BundleReadable(es) && k < |es|
    ensures ReadInstaller(lib, StoredZip(lib, es)) == Ok(es)
    ensures ReadBundle(lib, StoredZip(lib, es)) == Ok(MapOf(es))
    ensures ReadCatalogEntry(lib, StoredZip(lib, es), es[k].name) == Ok(es[k].data)
    ensures es[k].name in MapOf(es) && MapOf(es)[es[k].name] == es[k].data
  {
    hide StoredZip, Writable, WellBehaved, Names, BomFree, InstallerNames, SafePath, ReadInstaller, ReadBundle,
      ReadCatalogEntry, MapOf, DataTotal;
    forall i, j | 0 <= i < j < |es| ensures es[i].name != es[j].name {
      assert Fits(es, j);
      assert es[..j][i] == es[i];
      MapOfHas(es[..j], i);
    }
    BomFreeSeen(es);
    InstallerRoundTrip(lib, es);
    BundleRoundTrip(lib, es);
    CatalogRoundTrip(lib, es, es[k].name);
    MapOfAt(es, k);
  }
}
