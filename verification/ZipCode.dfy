/** The ZIP loops of the three source files, and the NeoForge installer rewrite built on them. */
module ZipCode {
  import opened Bytes
  import opened Text
  import opened Zip
  import opened ZipReaders

  // ---------------------------------------------------------------- writer

  method WriteStoredZip(lib: Library, entries: seq<ZipEntry>) returns (r: Result<Bytes>)
    ensures r == WriteZip(lib, entries)
  {
    hide Local, Central, Locals, Centrals;
    var local: Bytes, central: Bytes := [], [];
    var offset := 0;
    WholeAt(lib, entries);
    NothingYet(lib, entries);
    for k := 0 to |entries|
      invariant local == Locals(lib, entries[..k]) && offset == |local|
      invariant central == Centrals(lib, entries[..k], 0)
      invariant forall i :: 0 <= i < k ==> |entries[i].name| < TWO16 && |entries[i].data| < TWO32
    {
      var e := entries[k];
      SplitAt(lib, entries, k);
      Grown(lib, entries, k);
      if |e.data| >= 0x1_0000_0000 || |e.name| >= 0x1_0000 || offset >= 0x1_0000_0000 {
        return Failed;
      }
      local := local + Local(lib, e);
      central := central + Central(lib, e, offset);
      offset := offset + 30 + |e.name| + |e.data|;
    }
    assert entries[..|entries|] == entries;
    if |entries| >= 0x1_0000 || |central| >= 0x1_0000_0000 || offset >= 0x1_0000_0000 {
      return Failed;
    }
    return Ok(local + central + EndRecord(|entries|, |central|, offset));
  }

  lemma NothingYet(lib: Library, es: seq<ZipEntry>)
    ensures Locals(lib, es[..0]) == [] && Centrals(lib, es[..0], 0) == []
  {
  }

  lemma Grown(lib: Library, es: seq<ZipEntry>, k: nat)
    requires k < |es|
    ensures Locals(lib, es[..k + 1]) == Locals(lib, es[..k]) + Local(lib, es[k])
    ensures Centrals(lib, es[..k + 1], 0) == Centrals(lib, es[..k], 0) + Central(lib, es[k], LocalAt(lib, es, k))
  {
    hide Local, Central;
    var most := es[..k + 1];
    SplitAt(lib, most, k);
    assert most[..k] == es[..k] && most[k + 1..] == [];
    assert Locals(lib, []) == [] && Centrals(lib, [], LocalAt(lib, most, k + 1)) == [];
  }

  // ---------------------------------------------------------------- readers

  /** One entry of the installer's reader, at a central header. */
  method ReadInstallerEntry(lib: Library, b: Bytes, central: nat) returns (r: Result<ZipEntry>)
    ensures r == InstallerEntry(lib, b, central)
  {
    hide U16, U32, Decode, Sub, Parts;
    if U32(b, central) != 0x02014B50 {
      return Failed;
    }
    var kind, compressedSize, size := U16(b, central + 10), U32(b, central + 20), U32(b, central + 24);
    var nameLength := U16(b, central + 28);
    var local := U32(b, central + 42);
    var name := Decode(Sub(b, central + 46, central + 46 + nameLength));
    if name.Failed? {
      return Failed;
    }
    if U32(b, local) != 0x04034B50 || 0x5C in name.value || (|name.value| > 0 && name.value[0] == 0x2F) ||
       [0x2E, 0x2E] in Parts(name.value) {
      return Failed;
    }
    var start := local + 30 + U16(b, local + 26) + U16(b, local + 28);
    var compressed := Sub(b, start, start + compressedSize);
    var content := if kind == 0 then Ok(compressed) else if kind == 8 then lib.inflate(compressed) else Failed;
    if content.Failed? || |content.value| != size {
      return Failed;
    }
    return Ok(ZipEntry(name.value, content.value));
  }

  method ReadInstallerZip(lib: Library, b: Bytes) returns (r: Result<seq<ZipEntry>>)
    ensures r == ReadInstaller(lib, b)
  {
    hide U16, U32, InstallerEntry;
    if |b| < 22 {
      return Failed;
    }
    var end := |b| - 22;
    while end >= 0 && end >= |b| - 65557
      invariant -1 <= end <= |b| - 22
      invariant FindEnd(b, |b| - 22) == if end >= 0 then FindEnd(b, end) else -1
      decreases end + 1
    {
      if U32(b, end) == 0x06054B50 {
        var count := U16(b, end + 10);
        var central: nat := U32(b, end + 16);
        var entries: seq<ZipEntry> := [];
        for index := 0 to count
          invariant ReadInstaller(lib, b) == InstallerFrom(lib, b, central, count - index, entries)
        {
          var e := ReadInstallerEntry(lib, b, central);
          if e.Failed? {
            return Failed;
          }
          entries := entries + [e.value];
          central := central + 46 + U16(b, central + 28) + U16(b, central + 30) + U16(b, central + 32);
        }
        return Ok(entries);
      }
      end := end - 1;
    }
    return Failed;
  }

  /** One entry of the bundle's reader, with the bytes that were counted before it. */
  method ReadBundleEntry(lib: Library, b: Bytes, centralOffset: nat, before: nat, cursor: nat) returns (r: Result<ZipEntry>)
    ensures r == BundleEntry(lib, b, centralOffset, before, cursor)
  {
    hide U16, U32, Decode, Sub, SafePath;
    if cursor + 46 > |b| || U32(b, cursor) != 0x02014B50 {
      return Failed;
    }
    var flags, kind, expectedCrc := U16(b, cursor + 8), U16(b, cursor + 10), U32(b, cursor + 16);
    var compressedSize, size := U32(b, cursor + 20), U32(b, cursor + 24);
    var nameLength := U16(b, cursor + 28);
    var end := cursor + 46 + nameLength + U16(b, cursor + 30) + U16(b, cursor + 32);
    var local := U32(b, cursor + 42);
    var logical := before + size;
    if end > |b| || flags % 2 == 1 || (kind != 0 && kind != 8) || size > 67108864 || logical > 402653184 ||
       (size > 0 && (compressedSize == 0 || size > 100 * compressedSize)) {
      return Failed;
    }
    var path := Decode(Sub(b, cursor + 46, cursor + 46 + nameLength));
    if path.Failed? {
      return Failed;
    }
    if !SafePath(path.value, 1024) || local + 30 > centralOffset || U32(b, local) != 0x04034B50 {
      return Failed;
    }
    var start := local + 30 + U16(b, local + 26) + U16(b, local + 28);
    if start + compressedSize > centralOffset {
      return Failed;
    }
    var compressed := Sub(b, start, start + compressedSize);
    var bytes := if kind == 0 then Ok(compressed) else lib.inflate(compressed);
    if bytes.Failed? || |bytes.value| != size || lib.crc32(bytes.value) != expectedCrc {
      return Failed;
    }
    return Ok(ZipEntry(path.value, bytes.value));
  }

  method ReadBundleZip(lib: Library, b: Bytes) returns (r: Result<map<Bytes, Bytes>>)
    ensures r == ReadBundle(lib, b)
  {
    hide U16, U32, BundleEntry;
    if |b| < 22 {
      return Failed;
    }
    var eocd := -1;
    var offset := |b| - 22;
    while offset >= 0 && offset >= |b| - 65557
      invariant -1 <= offset <= |b| - 22 && eocd == -1
      invariant FindEnd(b, |b| - 22) == if offset >= 0 then FindEnd(b, offset) else -1
      decreases offset + 1
    {
      if U32(b, offset) == 0x06054B50 {
        eocd := offset;
        break;
      }
      offset := offset - 1;
    }
    assert eocd == FindEnd(b, |b| - 22);
    if eocd < 0 || U16(b, eocd + 4) != 0 || U16(b, eocd + 6) != 0 {
      return Failed;
    }
    var count, centralSize, centralOffset := U16(b, eocd + 10), U32(b, eocd + 12), U32(b, eocd + 16);
    if count > 4096 || centralOffset + centralSize > eocd {
      return Failed;
    }
    var entries: map<Bytes, Bytes> := map[];
    var cursor: nat, logical: nat := centralOffset, 0;
    for index := 0 to count
      invariant BundleFrom(lib, b, centralOffset, centralOffset, count, 0, map[]) ==
        BundleFrom(lib, b, centralOffset, cursor, count - index, logical, entries)
    {
      var e := ReadBundleEntry(lib, b, centralOffset, logical, cursor);
      if e.Failed? || e.value.name in entries {
        return Failed;
      }
      entries := entries[e.value.name := e.value.data];
      logical := logical + U32(b, cursor + 24);
      cursor := cursor + 46 + U16(b, cursor + 28) + U16(b, cursor + 30) + U16(b, cursor + 32);
    }
    if cursor != centralOffset + centralSize {
      return Failed;
    }
    return Ok(entries);
  }

  method FindCatalogEntry(lib: Library, b: Bytes, path: Bytes) returns (r: Result<Bytes>)
    ensures r == ReadCatalogEntry(lib, b, path)
  {
    hide U16, U32, Sub, Decode;
    if |b| < 22 {
      return Failed;
    }
    var offset := |b| - 22;
    while offset >= 0 && offset >= |b| - 65557
      invariant -1 <= offset <= |b| - 22
      invariant ReadCatalogEntry(lib, b, path) == if offset >= 0 then CatalogFrom(lib, b, path, offset) else Failed
      decreases offset + 1
    {
      if U32(b, offset) == 0x06054B50 {
        var entries := U16(b, offset + 10);
        var central: nat := U32(b, offset + 16);
        var index := 0;
        ghost var search := SearchFrom(lib, b, path, central, entries);
        while index < entries
          invariant index <= entries
          invariant search == SearchFrom(lib, b, path, central, entries - index)
          decreases entries - index
        {
          if U32(b, central) != 0x02014B50 {
            break;
          }
          var kind, compressedSize, size := U16(b, central + 10), U32(b, central + 20), U32(b, central + 24);
          var nameLength, local := U16(b, central + 28), U32(b, central + 42);
          var name := Decode(Sub(b, central + 46, central + 46 + nameLength));
          if name.Failed? {
            return Failed;
          }
          if name.value == path {
            if U32(b, local) != 0x04034B50 || (kind != 0 && kind != 8) {
              break;
            }
            var start := local + 30 + U16(b, local + 26) + U16(b, local + 28);
            var compressed := Sub(b, start, start + compressedSize);
            var result := if kind == 0 then Ok(compressed) else lib.inflate(compressed);
            if result.Failed? {
              return Failed;
            }
            if |result.value| != size {
              break;
            }
            return Ok(result.value);
          }
          central := central + 46 + nameLength + U16(b, central + 30) + U16(b, central + 32);
          index := index + 1;
        }
        assert search == Missing;
      }
      offset := offset - 1;
    }
    return Failed;
  }

  // ---------------------------------------------------------------- installer rewrite

  datatype Document<P, R> = Document(processors: seq<P>, rest: R)

  /** JSON parsing and printing, and whether a processor downloads the Mojang mappings. */
  datatype Json<!P(!new), !R(!new)> = Json(
    parse: Bytes -> Result<Document<P, R>>,
    stringify: Document<P, R> -> Bytes,
    downloads: P -> bool)

  ghost predicate Faithful<P(!new), R(!new)>(json: Json<P, R>)
  {
    forall d :: json.parse(json.stringify(d)) == Ok(d)
  }

  /** "install_profile.json" */
  const PROFILE: Bytes := [0x69, 0x6E, 0x73, 0x74, 0x61, 0x6C, 0x6C, 0x5F, 0x70, 0x72, 0x6F, 0x66, 0x69, 0x6C,
                           0x65, 0x2E, 0x6A, 0x73, 0x6F, 0x6E]

  /** Index of the first profile entry, or the number of entries. */
  function FirstProfile(es: seq<ZipEntry>, k: nat): (r: nat)
    requires k <= |es|
    ensures k <= r <= |es|
    ensures r < |es| ==> es[r].name == PROFILE
    ensures forall i :: k <= i < r ==> es[i].name != PROFILE
    decreases |es| - k
  {
    if k == |es| || es[k].name == PROFILE then k else FirstProfile(es, k + 1)
  }

  function Kept<P>(downloads: P -> bool, ps: seq<P>): (r: seq<P>)
    ensures |r| <= |ps|
  {
    if ps == [] then []
    else if downloads(ps[0]) then Kept(downloads, ps[1..])
    else [ps[0]] + Kept(downloads, ps[1..])
  }

  /** `rewriteNeoForgeInstaller`. */
  function Rewrite<P(!new), R(!new)>(lib: Library, json: Json<P, R>, b: Bytes): (r: Result<Bytes>)
  {
    var es :- ReadInstaller(lib, b);
    var k := FirstProfile(es, 0);
    if k == |es| then Failed
    else
      var document :- json.parse(es[k].data);
      var kept := Kept(json.downloads, document.processors);
      if |kept| != |document.processors| - 1 then Failed
      else WriteZip(lib, es[k := ZipEntry(es[k].name, json.stringify(document.(processors := kept)))])
  }

  /** `rewriteNeoForgeInstaller`, with its search and its filter. */
  method RewriteInstaller<P(!new), R(!new)>(lib: Library, json: Json<P, R>, b: Bytes) returns (r: Result<Bytes>)
    ensures r == Rewrite(lib, json, b)
  {
    hide ReadInstaller, WriteZip;
    var entries := ReadInstallerZip(lib, b);
    if entries.Failed? {
      return Failed;
    }
    var es := entries.value;
    var name: Bytes := [0x69, 0x6E, 0x73, 0x74, 0x61, 0x6C, 0x6C, 0x5F, 0x70, 0x72, 0x6F, 0x66, 0x69, 0x6C, 0x65, 0x2E, 0x6A,
                        0x73, 0x6F, 0x6E];
    var k := 0;
    while k < |es| && es[k].name != name
      invariant k <= |es| && FirstProfile(es, 0) == FirstProfile(es, k)
    {
      k := k + 1;
    }
    if k == |es| {
      return Failed;
    }
    var parsed := json.parse(es[k].data);
    if parsed.Failed? {
      return Failed;
    }
    var before, kept := parsed.value.processors, [];
    for i := 0 to |before|
      invariant Kept(json.downloads, before) == kept + Kept(json.downloads, before[i..])
    {
      assert before[i..][0] == before[i] && before[i..][1..] == before[i + 1..];
      if !json.downloads(before[i]) {
        kept := kept + [before[i]];
      }
    }
    assert kept + [] == kept;
    if |kept| != |before| - 1 {
      return Failed;
    }
    r := WriteStoredZip(lib, es[k := ZipEntry(es[k].name, json.stringify(parsed.value.(processors := kept)))]);
  }

  /** The one processor that goes, and that the others stay in their order. */
  ghost predicate DropsOne<P>(downloads: P -> bool, before: seq<P>, after: seq<P>, j: nat)
  {
    && j < |before| && downloads(before[j])
    && (forall i :: 0 <= i < |before| && i != j ==> !downloads(before[i]))
    && after == before[..j] + before[j + 1..]
  }

  lemma {:induction false} KeptAll<P>(downloads: P -> bool, ps: seq<P>)
    requires |Kept(downloads, ps)| == |ps|
    ensures Kept(downloads, ps) == ps
    ensures forall i :: 0 <= i < |ps| ==> !downloads(ps[i])
  {
    if ps != [] {
      KeptAll(downloads, ps[1..]);
      assert forall i :: 1 <= i < |ps| ==> ps[i] == ps[1..][i - 1];
    }
  }

  lemma {:induction false} KeptDropsOne<P>(downloads: P -> bool, ps: seq<P>) returns (j: nat)
    requires |Kept(downloads, ps)| == |ps| - 1
    ensures DropsOne(downloads, ps, Kept(downloads, ps), j)
  {
    if downloads(ps[0]) {
      KeptAll(downloads, ps[1..]);
      j := 0;
      assert ps[..0] + ps[1..] == ps[1..];
      assert forall i :: 1 <= i < |ps| ==> ps[i] == ps[1..][i - 1];
    } else {
      var i := KeptDropsOne(downloads, ps[1..]);
      j := i + 1;
      assert [ps[0]] + (ps[1..][..i] + ps[1..][i + 1..]) == ps[..j] + ps[j + 1..];
      assert forall x :: 1 <= x < |ps| ==> ps[x] == ps[1..][x - 1];
    }
  }

  lemma StripBomUtf8(b: Bytes)
    requires Utf8(b)
    ensures Utf8(StripBom(b))
  {
    if BOM <= b {
      assert b[0] == 0xEF && b[1] == 0xBB && b[2] == 0xBF;
      assert CharLength(b) == 3;
    }
  }

  lemma InstallerEntryName(lib: Library, b: Bytes, at: nat)
    requires InstallerEntry(lib, b, at).Ok?
    ensures var name := InstallerEntry(lib, b, at).value.name; Utf8(name) && InstallerName(name)
  {
    hide U16, U32, Sub, DataStart, InstallerName;
    StripBomUtf8(NameBytes(b, ReadDirectory(b, at), at));
  }

  lemma {:induction false} ReadNames(lib: Library, b: Bytes, at: nat, count: nat, entries: seq<ZipEntry>)
    requires Names(entries) && InstallerNames(entries)
    requires InstallerFrom(lib, b, at, count, entries).Ok?
    ensures var es := InstallerFrom(lib, b, at, count, entries).value; Names(es) && InstallerNames(es)
    decreases count
  {
    hide U16, U32, InstallerEntry, Next, Utf8, InstallerName;
    if count > 0 {
      var e := InstallerEntry(lib, b, at).value;
      InstallerEntryName(lib, b, at);
      ReadNames(lib, b, Next(ReadDirectory(b, at), at), count - 1, entries + [e]);
    }
  }

  /**
   A rewritten installer reads back with the same entries in the same order, except that the
   profile has lost exactly one processor; this needs, and only needs, names without a BOM.
   */
  lemma RewriteChangesOnlyTheProfile<P(!new), R(!new)>(lib: Library, json: Json<P, R>, b: Bytes)
    returns (k: nat, document: Document<P, R>, j: nat, kept: seq<P>)
    requires WellBehaved(lib) && Faithful(json)
    requires Rewrite(lib, json, b).Ok?
    ensures ReadInstaller(lib, b).Ok?
    ensures var es := ReadInstaller(lib, b).value;
      && k < |es| && es[k].name == PROFILE && json.parse(es[k].data) == Ok(document)
      && DropsOne(json.downloads, document.processors, kept, j)
      && var profile := json.stringify(document.(processors := kept));
      && json.parse(profile) == Ok(document.(processors := kept))
      && (ReadInstaller(lib, Rewrite(lib, json, b).value) == Ok(es[k := ZipEntry(PROFILE, profile)]) <==> BomFree(es))
  {
    hide StoredZip, Writable, WellBehaved, FindEnd, InstallerFrom, Names, InstallerNames, U16, U32, FirstProfile, Kept;
    var es := ReadInstaller(lib, b).value;
    k := FirstProfile(es, 0);
    document := json.parse(es[k].data).value;
    kept := Kept(json.downloads, document.processors);
    j := KeptDropsOne(json.downloads, document.processors);
    var es' := es[k := ZipEntry(es[k].name, json.stringify(document.(processors := kept)))];
    var end := FindEnd(b, |b| - 22);
    assert Names([]) && InstallerNames([]) by { NoNames(); }
    ReadNames(lib, b, U32(b, end + 16), U16(b, end + 10), []);
    SameNames(es, k, es'[k]);
    InstallerRoundTrip(lib, es');
  }

  lemma NoNames()
    ensures Names([]) && InstallerNames([])
  {
  }

  lemma SameNames(es: seq<ZipEntry>, k: nat, e: ZipEntry)
    requires k < |es| && e.name == es[k].name
    requires Names(es) && InstallerNames(es)
    ensures Names(es[k := e]) && InstallerNames(es[k := e])
    ensures BomFree(es) <==> BomFree(es[k := e])
  {
    hide Utf8, InstallerName;
    forall i | 0 <= i < |es| ensures es[k := e][i].name == es[i].name {
    }
  }
}
