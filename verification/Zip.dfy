/**
 The stored ZIP writer of the installer sandbox and the three independent ZIP readers
 (sections 4.3.7, 4.3.12 and 4.3.16 of the PKWARE APPNOTE).
 */
module Zip {
  import opened Bytes
  import opened Text

  datatype ZipEntry = ZipEntry(name: Bytes, data: Bytes)

  /** What the source takes from libraries: CRC-32 and raw inflate. */
  datatype Library = Library(crc32: Bytes -> nat, inflate: Bytes -> Result<Bytes>)

  ghost predicate WellBehaved(lib: Library)
  {
    forall b :: lib.crc32(b) < TWO32
  }

  const TWO16: nat := 0x1_0000
  const TWO32: nat := 0x1_0000_0000
  const LOCAL_SIGNATURE: nat := 0x04034B50
  const CENTRAL_SIGNATURE: nat := 0x02014B50
  const END_SIGNATURE: nat := 0x06054B50
  const UTF8_FLAG: nat := 0x800

  // ---------------------------------------------------------------- reading integers

  /** A typed-array read past the end is `undefined`, which the bit operators turn into 0. */
  function At(b: Bytes, i: nat): Byte
  {
    if i < |b| then b[i] else 0
  }

  function U16(b: Bytes, i: nat): nat
  {
    At(b, i) + 256 * At(b, i + 1)
  }

  function U32(b: Bytes, i: nat): nat
  {
    U16(b, i) + TWO16 * U16(b, i + 2)
  }

  /** `bytes.subarray(lo, hi)`, which clamps both ends. */
  function Sub(b: Bytes, lo: nat, hi: nat): Bytes
  {
    if lo >= |b| || hi <= lo then [] else if hi > |b| then b[lo..] else b[lo..hi]
  }

  /** Numbers and slices past the end are read as if NULs, or nothing, followed. */
  lemma PastEnd(b: Bytes, n: nat, lo: nat, hi: nat)
    ensures U16(b + Zeros(n), lo) == U16(b, lo) && U32(b + Zeros(n), lo) == U32(b, lo)
    ensures lo <= hi ==> Sub(b, lo, hi) == Sub(b, 0, hi)[|Sub(b, 0, lo)|..]
    ensures Sub(b, 0, hi) == if hi <= |b| then b[..hi] else b
  {
    forall i: nat ensures At(b + Zeros(n), i) == At(b, i) {
    }
  }

  lemma Read16(b: Bytes, i: nat, value: nat)
    requires value < TWO16 && i + 2 <= |b| && b[i..i + 2] == LittleEndian(value, 2)
    ensures U16(b, i) == value
  {
    var d := LittleEndian(value, 2);
    assert d == [value % 256] + LittleEndian(value / 256, 1);
    assert LittleEndian(value / 256, 1) == [value / 256 % 256] + LittleEndian(value / 256 / 256, 0);
    assert b[i] == d[0] && b[i + 1] == d[1];
  }

  lemma Read32(b: Bytes, i: nat, value: nat)
    requires value < TWO32 && i + 4 <= |b| && b[i..i + 4] == LittleEndian(value, 4)
    ensures U32(b, i) == value
  {
    var d := LittleEndian(value, 4);
    assert d == [value % 256] + LittleEndian(value / 256, 3);
    assert LittleEndian(value / 256, 3) == [value / 256 % 256] + LittleEndian(value / 256 / 256, 2);
    assert d[2..] == LittleEndian(value / TWO16, 2) by {
      assert value / 256 / 256 == value / TWO16;
    }
    assert b[i] == d[0] && b[i + 1] == d[1];
    assert b[i + 2..i + 4] == d[2..];
    Read16(b, i + 2, value / TWO16);
  }

  /** Integers inside the middle part of a concatenation. */
  lemma MiddleIntegers(a: Bytes, b: Bytes, c: Bytes, k: nat)
    ensures k + 2 <= |b| ==> U16(a + b + c, |a| + k) == U16(b, k)
    ensures k + 4 <= |b| ==> U32(a + b + c, |a| + k) == U32(b, k)
  {
    var whole := a + b + c;
    assert forall i :: 0 <= i < |b| ==> whole[|a| + i] == b[i];
  }

  // ---------------------------------------------------------------- writing

  function LocalHeader(crc: nat, size: nat, nameLength: nat): (h: Bytes)
    ensures |h| == 30
  {
    var h := Put(Zeros(30), 0, LittleEndian(LOCAL_SIGNATURE, 4));
    var h := Put(h, 4, LittleEndian(20, 2));
    var h := Put(h, 6, LittleEndian(UTF8_FLAG, 2));
    var h := Put(h, 14, LittleEndian(crc, 4));
    var h := Put(h, 18, LittleEndian(size, 4));
    var h := Put(h, 22, LittleEndian(size, 4));
    Put(h, 26, LittleEndian(nameLength, 2))
  }

  function CentralHeader(crc: nat, size: nat, nameLength: nat, offset: nat): (h: Bytes)
    ensures |h| == 46
  {
    var h := Put(Zeros(46), 0, LittleEndian(CENTRAL_SIGNATURE, 4));
    var h := Put(h, 4, LittleEndian(20, 2));
    var h := Put(h, 6, LittleEndian(20, 2));
    var h := Put(h, 8, LittleEndian(UTF8_FLAG, 2));
    var h := Put(h, 16, LittleEndian(crc, 4));
    var h := Put(h, 20, LittleEndian(size, 4));
    var h := Put(h, 24, LittleEndian(size, 4));
    var h := Put(h, 28, LittleEndian(nameLength, 2));
    Put(h, 42, LittleEndian(offset, 4))
  }

  function EndRecord(count: nat, centralSize: nat, centralOffset: nat): (h: Bytes)
    ensures |h| == 22
  {
    var h := Put(Zeros(22), 0, LittleEndian(END_SIGNATURE, 4));
    var h := Put(h, 8, LittleEndian(count, 2));
    var h := Put(h, 10, LittleEndian(count, 2));
    var h := Put(h, 12, LittleEndian(centralSize, 4));
    Put(h, 16, LittleEndian(centralOffset, 4))
  }

  function Local(lib: Library, e: ZipEntry): (r: Bytes)
    ensures |r| == 30 + |e.name| + |e.data|
  {
    LocalHeader(lib.crc32(e.data), |e.data|, |e.name|) + e.name + e.data
  }

  function Central(lib: Library, e: ZipEntry, offset: nat): (r: Bytes)
    ensures |r| == 46 + |e.name|
  {
    CentralHeader(lib.crc32(e.data), |e.data|, |e.name|, offset) + e.name
  }

  function Locals(lib: Library, es: seq<ZipEntry>): (r: Bytes)
  {
    if es == [] then [] else Local(lib, es[0]) + Locals(lib, es[1..])
  }

  function Centrals(lib: Library, es: seq<ZipEntry>, offset: nat): (r: Bytes)
  {
    if es == [] then []
    else Central(lib, es[0], offset) + Centrals(lib, es[1..], offset + 30 + |es[0].name| + |es[0].data|)
  }

  function StoredZip(lib: Library, es: seq<ZipEntry>): (r: Bytes)
    ensures |r| == |Locals(lib, es)| + |Centrals(lib, es, 0)| + 22
  {
    Locals(lib, es) + Centrals(lib, es, 0) + EndRecord(|es|, |Centrals(lib, es, 0)|, |Locals(lib, es)|)
  }

  /** The integer writes throw on anything that does not fit its field. */
  predicate Writable(lib: Library, es: seq<ZipEntry>)
  {
    && |es| < TWO16
    && (forall i :: 0 <= i < |es| ==> |es[i].name| < TWO16 && |es[i].data| < TWO32)
    && |Locals(lib, es)| < TWO32 && |Centrals(lib, es, 0)| < TWO32
  }

  /** `writeStoredZip`. */
  function WriteZip(lib: Library, es: seq<ZipEntry>): (r: Result<Bytes>)
  {
    if Writable(lib, es) then Ok(StoredZip(lib, es)) else Failed
  }

  // ---------------------------------------------------------------- where everything sits

  lemma {:induction false} LocalsConcat(lib: Library, a: seq<ZipEntry>, b: seq<ZipEntry>)
    ensures Locals(lib, a + b) == Locals(lib, a) + Locals(lib, b)
  {
    hide Local;
    if a == [] {
      assert a + b == b;
    } else {
      assert (a + b)[1..] == a[1..] + b;
      LocalsConcat(lib, a[1..], b);
    }
  }

  lemma {:induction false} CentralsConcat(lib: Library, a: seq<ZipEntry>, b: seq<ZipEntry>, offset: nat)
    ensures Centrals(lib, a + b, offset) == Centrals(lib, a, offset) + Centrals(lib, b, offset + |Locals(lib, a)|)
  {
    hide Local, Central;
    if a == [] {
      assert a + b == b;
    } else {
      assert (a + b)[1..] == a[1..] + b;
      CentralsConcat(lib, a[1..], b, offset + 30 + |a[0].name| + |a[0].data|);
    }
  }

  /** Offset of the k-th local header. */
  function LocalAt(lib: Library, es: seq<ZipEntry>, k: nat): nat
    requires k <= |es|
  {
    |Locals(lib, es[..k])|
  }

  /** Offset of the k-th central header. */
  function CentralAt(lib: Library, es: seq<ZipEntry>, k: nat): nat
    requires k <= |es|
  {
    |Locals(lib, es)| + |Centrals(lib, es[..k], 0)|
  }

  lemma SplitAt(lib: Library, es: seq<ZipEntry>, k: nat)
    requires k < |es|
    ensures Locals(lib, es) == Locals(lib, es[..k]) + Local(lib, es[k]) + Locals(lib, es[k + 1..])
    ensures Centrals(lib, es, 0) == Centrals(lib, es[..k], 0) + Central(lib, es[k], LocalAt(lib, es, k)) +
      Centrals(lib, es[k + 1..], LocalAt(lib, es, k + 1))
    ensures LocalAt(lib, es, k + 1) == LocalAt(lib, es, k) + 30 + |es[k].name| + |es[k].data|
    ensures CentralAt(lib, es, k + 1) == CentralAt(lib, es, k) + 46 + |es[k].name|
  {
    hide Local, Central, Locals, Centrals;
    var a, one, b := es[..k], [es[k]], es[k + 1..];
    assert es == a + one + b && es[..k + 1] == a + one;
    OneEntry(lib, es[k], LocalAt(lib, es, k));
    LocalsConcat(lib, a, one);
    LocalsConcat(lib, a + one, b);
    CentralsConcat(lib, a, one, 0);
    CentralsConcat(lib, a + one, b, 0);
  }

  lemma OneEntry(lib: Library, e: ZipEntry, offset: nat)
    ensures Locals(lib, [e]) == Local(lib, e)
    ensures Centrals(lib, [e], offset) == Central(lib, e, offset)
  {
    hide Local, Central;
    assert [e][1..] == [];
    assert Local(lib, e) + [] == Local(lib, e);
    assert Central(lib, e, offset) + [] == Central(lib, e, offset);
  }

  lemma WholeAt(lib: Library, es: seq<ZipEntry>)
    ensures LocalAt(lib, es, 0) == 0 && CentralAt(lib, es, 0) == |Locals(lib, es)|
    ensures LocalAt(lib, es, |es|) == |Locals(lib, es)|
    ensures CentralAt(lib, es, |es|) == |Locals(lib, es)| + |Centrals(lib, es, 0)|
  {
    assert es[..|es|] == es;
  }

  /** The fields a reader takes from a central header. */
  datatype Directory = Directory(
    flags: nat, method': nat, crc: nat, compressedSize: nat, size: nat,
    nameLength: nat, extraLength: nat, commentLength: nat, local: nat)

  function ReadDirectory(b: Bytes, at: nat): Directory
  {
    Directory(U16(b, at + 8), U16(b, at + 10), U32(b, at + 16), U32(b, at + 20), U32(b, at + 24),
              U16(b, at + 28), U16(b, at + 30), U16(b, at + 32), U32(b, at + 42))
  }

  /** A local header: version 2.0, UTF-8 names, stored, without a time, and the sizes twice. */
  ghost predicate LocalFields(b: Bytes, at: nat, crc: nat, size: nat, nameLength: nat)
  {
    && U32(b, at) == 0x04034B50
    && U16(b, at + 4) == 20 && U16(b, at + 6) == 0x800 && U16(b, at + 8) == 0
    && U16(b, at + 10) == 0 && U16(b, at + 12) == 0
    && U32(b, at + 14) == crc && U32(b, at + 18) == size && U32(b, at + 22) == size
    && U16(b, at + 26) == nameLength && U16(b, at + 28) == 0
  }

  lemma LocalLayout(crc: nat, size: nat, nameLength: nat)
    requires crc < TWO32 && size < TWO32 && nameLength < TWO16
    ensures LocalFields(LocalHeader(crc, size, nameLength), 0, crc, size, nameLength)
  {
    hide Put, LittleEndian, Zeros, U16, U32;
    var h := LocalHeader(crc, size, nameLength);
    assert h[0..4] == LittleEndian(LOCAL_SIGNATURE, 4);
    assert h[4..6] == LittleEndian(20, 2) && h[6..8] == LittleEndian(UTF8_FLAG, 2);
    assert h[14..18] == LittleEndian(crc, 4);
    assert h[18..22] == LittleEndian(size, 4) && h[22..26] == LittleEndian(size, 4);
    assert h[26..28] == LittleEndian(nameLength, 2);
    Read32(h, 0, LOCAL_SIGNATURE);
    Read16(h, 4, 20);
    Read16(h, 6, UTF8_FLAG);
    Read32(h, 14, crc);
    Read32(h, 18, size);
    Read32(h, 22, size);
    Read16(h, 26, nameLength);
    assert h[8..10] == [0, 0] && h[10..12] == [0, 0] && h[12..14] == [0, 0] && h[28..30] == [0, 0];
    ZeroRead(h, 8);
    ZeroRead(h, 10);
    ZeroRead(h, 12);
    ZeroRead(h, 28);
  }

  lemma ZeroRead(h: Bytes, i: nat)
    requires i + 2 <= |h| && h[i..i + 2] == [0, 0]
    ensures U16(h, i) == 0
  {
    assert h[i..i + 2][0] == 0 && h[i..i + 2][1] == 0;
  }

  /** What a central header says beside the directory fields: versions 2.0, no time, one disk, no attributes. */
  ghost predicate CentralRest(b: Bytes, at: nat)
  {
    && U16(b, at + 4) == 20 && U16(b, at + 6) == 20 && U16(b, at + 12) == 0 && U16(b, at + 14) == 0
    && U16(b, at + 34) == 0 && U16(b, at + 36) == 0 && U16(b, at + 38) == 0 && U16(b, at + 40) == 0
  }

  lemma CentralRestLayout(crc: nat, size: nat, nameLength: nat, offset: nat)
    ensures CentralRest(CentralHeader(crc, size, nameLength, offset), 0)
  {
    hide Put, LittleEndian, Zeros, U16, U32;
    var h := CentralHeader(crc, size, nameLength, offset);
    assert h[4..6] == LittleEndian(20, 2) && h[6..8] == LittleEndian(20, 2);
    Read16(h, 4, 20);
    Read16(h, 6, 20);
    assert h[12..14] == [0, 0] && h[14..16] == [0, 0];
    assert h[34..36] == [0, 0] && h[36..38] == [0, 0] && h[38..40] == [0, 0] && h[40..42] == [0, 0];
    ZeroRead(h, 12);
    ZeroRead(h, 14);
    ZeroRead(h, 34);
    ZeroRead(h, 36);
    ZeroRead(h, 38);
    ZeroRead(h, 40);
  }

  lemma CentralLayout(crc: nat, size: nat, nameLength: nat, offset: nat)
    requires crc < TWO32 && size < TWO32 && nameLength < TWO16 && offset < TWO32
    ensures var h := CentralHeader(crc, size, nameLength, offset);
      && U32(h, 0) == 0x02014B50
      && ReadDirectory(h, 0) == Directory(0x800, 0, crc, size, size, nameLength, 0, 0, offset)
  {
    hide Put, LittleEndian, Zeros, U16, U32;
    var h := CentralHeader(crc, size, nameLength, offset);
    assert h[0..4] == LittleEndian(CENTRAL_SIGNATURE, 4);
    assert h[8..10] == LittleEndian(UTF8_FLAG, 2);
    assert h[16..20] == LittleEndian(crc, 4);
    assert h[20..24] == LittleEndian(size, 4) && h[24..28] == LittleEndian(size, 4);
    assert h[28..30] == LittleEndian(nameLength, 2);
    assert h[42..46] == LittleEndian(offset, 4);
    assert h[10..12] == [0, 0] && h[30..32] == [0, 0] && h[32..34] == [0, 0];
    Read32(h, 0, CENTRAL_SIGNATURE);
    Read16(h, 8, UTF8_FLAG);
    Read32(h, 16, crc);
    Read32(h, 20, size);
    Read32(h, 24, size);
    Read16(h, 28, nameLength);
    Read32(h, 42, offset);
    ZeroRead(h, 10);
    ZeroRead(h, 30);
    ZeroRead(h, 32);
  }

  /** An end record: one disk, the number of entries twice, where the directory is, and no comment. */
  ghost predicate EndFields(b: Bytes, at: nat, count: nat, size: nat, offset: nat)
  {
    && U32(b, at) == 0x06054B50 && U16(b, at + 4) == 0 && U16(b, at + 6) == 0
    && U16(b, at + 8) == count && U16(b, at + 10) == count && U16(b, at + 20) == 0
    && U32(b, at + 12) == size && U32(b, at + 16) == offset
  }

  lemma EndBytes(count: nat, size: nat, offset: nat)
    ensures var h := EndRecord(count, size, offset);
      && h[0..4] == LittleEndian(END_SIGNATURE, 4)
      && h[8..10] == LittleEndian(count, 2) && h[10..12] == LittleEndian(count, 2)
      && h[12..16] == LittleEndian(size, 4) && h[16..20] == LittleEndian(offset, 4)
  {
    hide Put, LittleEndian, Zeros;
  }

  lemma EndZeros(count: nat, size: nat, offset: nat)
    ensures var h := EndRecord(count, size, offset); h[4..6] == h[6..8] == h[20..22] == [0, 0]
  {
    hide Put, LittleEndian;
    var h := EndRecord(count, size, offset);
    assert h[4] == h[5] == h[6] == h[7] == h[20] == h[21] == 0;
  }

  lemma EndRecordLayout(count: nat, size: nat, offset: nat)
    requires count < TWO16 && size < TWO32 && offset < TWO32
    ensures EndFields(EndRecord(count, size, offset), 0, count, size, offset)
  {
    hide EndRecord, LittleEndian, U16, U32;
    var h := EndRecord(count, size, offset);
    EndBytes(count, size, offset);
    EndZeros(count, size, offset);
    Read32(h, 0, END_SIGNATURE);
    Read16(h, 8, count);
    Read16(h, 10, count);
    Read32(h, 12, size);
    Read32(h, 16, offset);
    ZeroRead(h, 4);
    ZeroRead(h, 6);
    ZeroRead(h, 20);
  }

  lemma EndCarried(a: Bytes, h: Bytes, count: nat, size: nat, offset: nat)
    requires |h| == 22 && EndFields(h, 0, count, size, offset)
    ensures EndFields(a + h, |a|, count, size, offset)
  {
    hide U16, U32;
    assert a + h + [] == a + h;
    MiddleIntegers(a, h, [], 0);
    MiddleIntegers(a, h, [], 4);
    MiddleIntegers(a, h, [], 6);
    MiddleIntegers(a, h, [], 8);
    MiddleIntegers(a, h, [], 10);
    MiddleIntegers(a, h, [], 12);
    MiddleIntegers(a, h, [], 16);
    MiddleIntegers(a, h, [], 20);
  }

  lemma EndLayout(lib: Library, es: seq<ZipEntry>)
    requires Writable(lib, es)
    ensures var z := StoredZip(lib, es); var end := |z| - 22;
      && U32(z, end) == 0x06054B50 && U16(z, end + 4) == 0 && U16(z, end + 6) == 0
      && U16(z, end + 8) == |es| && U16(z, end + 10) == |es| && U16(z, end + 20) == 0
      && U32(z, end + 12) == |Centrals(lib, es, 0)| && U32(z, end + 16) == |Locals(lib, es)|
  {
    hide U16, U32, Locals, Centrals, EndRecord;
    var before := Locals(lib, es) + Centrals(lib, es, 0);
    var size, offset := |Centrals(lib, es, 0)|, |Locals(lib, es)|;
    var h := EndRecord(|es|, size, offset);
    EndRecordLayout(|es|, size, offset);
    EndCarried(before, h, |es|, size, offset);
    assert StoredZip(lib, es) == before + h;
  }

  /** The headers, the name and the bytes of the k-th entry of a written archive. */
  ghost predicate EntryAt(lib: Library, es: seq<ZipEntry>, k: nat)
    requires k < |es|
  {
    var z, e, c, l := StoredZip(lib, es), es[k], CentralAt(lib, es, k), LocalAt(lib, es, k);
    && c + 46 + |e.name| <= |z| - 22
    && U32(z, c) == 0x02014B50 && CentralRest(z, c)
    && ReadDirectory(z, c) == Directory(0x800, 0, lib.crc32(e.data), |e.data|, |e.data|, |e.name|, 0, 0, l)
    && z[c + 46..c + 46 + |e.name|] == e.name
    && l + 30 + |e.name| + |e.data| <= |Locals(lib, es)|
    && LocalFields(z, l, lib.crc32(e.data), |e.data|, |e.name|)
    && z[l + 30..l + 30 + |e.name|] == e.name
    && z[l + 30 + |e.name|..l + 30 + |e.name| + |e.data|] == e.data
  }

  lemma CentralReads(lib: Library, e: ZipEntry, offset: nat, a: Bytes, c: Bytes)
    requires WellBehaved(lib)
    requires |e.name| < TWO16 && |e.data| < TWO32 && offset < TWO32
    ensures var z := a + Central(lib, e, offset) + c;
      && U32(z, |a|) == 0x02014B50 && CentralRest(z, |a|)
      && ReadDirectory(z, |a|) ==
         Directory(0x800, 0, lib.crc32(e.data), |e.data|, |e.data|, |e.name|, 0, 0, offset)
      && z[|a| + 46..|a| + 46 + |e.name|] == e.name
  {
    hide U16, U32, CentralHeader, CentralRest, ReadDirectory;
    var h := CentralHeader(lib.crc32(e.data), |e.data|, |e.name|, offset);
    var z := a + Central(lib, e, offset) + c;
    CentralLayout(lib.crc32(e.data), |e.data|, |e.name|, offset);
    CentralRestLayout(lib.crc32(e.data), |e.data|, |e.name|, offset);
    assert z == a + h + (e.name + c);
    CentralRestCarried(a, h, e.name + c);
    DirectoryCarried(a, h, e.name + c);
    assert z == (a + h) + e.name + c;
    MiddleSlice(a + h, e.name, c, 0, |e.name|);
  }

  lemma DirectoryCarried(a: Bytes, h: Bytes, after: Bytes)
    requires |h| == 46
    ensures U32(a + h + after, |a|) == U32(h, 0) && ReadDirectory(a + h + after, |a|) == ReadDirectory(h, 0)
  {
    hide U16, U32;
    MiddleIntegers(a, h, after, 0);
    MiddleIntegers(a, h, after, 8);
    MiddleIntegers(a, h, after, 10);
    MiddleIntegers(a, h, after, 16);
    MiddleIntegers(a, h, after, 20);
    MiddleIntegers(a, h, after, 24);
    MiddleIntegers(a, h, after, 28);
    MiddleIntegers(a, h, after, 30);
    MiddleIntegers(a, h, after, 32);
    MiddleIntegers(a, h, after, 42);
  }

  lemma CentralRestCarried(a: Bytes, h: Bytes, after: Bytes)
    requires |h| == 46 && CentralRest(h, 0)
    ensures CentralRest(a + h + after, |a|)
  {
    hide U16, U32;
    MiddleIntegers(a, h, after, 4);
    MiddleIntegers(a, h, after, 6);
    MiddleIntegers(a, h, after, 12);
    MiddleIntegers(a, h, after, 14);
    MiddleIntegers(a, h, after, 34);
    MiddleIntegers(a, h, after, 36);
    MiddleIntegers(a, h, after, 38);
    MiddleIntegers(a, h, after, 40);
  }

  lemma LocalCarried(a: Bytes, h: Bytes, after: Bytes, crc: nat, size: nat, nameLength: nat)
    requires |h| == 30 && LocalFields(h, 0, crc, size, nameLength)
    ensures LocalFields(a + h + after, |a|, crc, size, nameLength)
  {
    hide U16, U32;
    MiddleIntegers(a, h, after, 0);
    MiddleIntegers(a, h, after, 4);
    MiddleIntegers(a, h, after, 6);
    MiddleIntegers(a, h, after, 8);
    MiddleIntegers(a, h, after, 10);
    MiddleIntegers(a, h, after, 12);
    MiddleIntegers(a, h, after, 14);
    MiddleIntegers(a, h, after, 18);
    MiddleIntegers(a, h, after, 22);
    MiddleIntegers(a, h, after, 26);
    MiddleIntegers(a, h, after, 28);
  }

  lemma LocalReads(lib: Library, e: ZipEntry, a: Bytes, c: Bytes)
    requires WellBehaved(lib) && |e.name| < TWO16 && |e.data| < TWO32
    ensures var z := a + Local(lib, e) + c;
      && LocalFields(z, |a|, lib.crc32(e.data), |e.data|, |e.name|)
      && z[|a| + 30..|a| + 30 + |e.name|] == e.name
      && z[|a| + 30 + |e.name|..|a| + 30 + |e.name| + |e.data|] == e.data
  {
    hide U16, U32, LocalHeader;
    var h := LocalHeader(lib.crc32(e.data), |e.data|, |e.name|);
    var z := a + Local(lib, e) + c;
    LocalLayout(lib.crc32(e.data), |e.data|, |e.name|);
    var after := e.name + e.data + c;
    assert z == a + h + after;
    LocalCarried(a, h, after, lib.crc32(e.data), |e.data|, |e.name|);
    assert z == (a + h) + e.name + (e.data + c);
    MiddleSlice(a + h, e.name, e.data + c, 0, |e.name|);
    assert z == (a + h + e.name) + e.data + c;
    MiddleSlice(a + h + e.name, e.data, c, 0, |e.data|);
  }

  lemma EntryLayout(lib: Library, es: seq<ZipEntry>, k: nat)
    requires WellBehaved(lib) && Writable(lib, es) && k < |es|
    ensures EntryAt(lib, es, k)
  {
    hide U16, U32, Local, Central, Locals, Centrals, WellBehaved, ReadDirectory, EndRecord, LocalFields, CentralRest;
    var z, e, c, l := StoredZip(lib, es), es[k], CentralAt(lib, es, k), LocalAt(lib, es, k);
    var la, lc := Locals(lib, es[..k]), Locals(lib, es[k + 1..]);
    var ca, cc := Centrals(lib, es[..k], 0), Centrals(lib, es[k + 1..], LocalAt(lib, es, k + 1));
    var end := EndRecord(|es|, |Centrals(lib, es, 0)|, |Locals(lib, es)|);
    SplitAt(lib, es, k);
    assert z == la + Local(lib, e) + (lc + Centrals(lib, es, 0) + end);
    LocalReads(lib, e, la, lc + Centrals(lib, es, 0) + end);
    assert z == (Locals(lib, es) + ca) + Central(lib, e, l) + (cc + end);
    CentralReads(lib, e, l, Locals(lib, es) + ca, cc + end);
  }
}
