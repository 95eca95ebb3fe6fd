/**
 The deterministic ustar writer and the strict reader of the reviewed builder
 ("ustar Interchange Format" of the pax utility in IEEE Std 1003.1).
 */
module Tar {
  import opened Bytes
  import opened Sorting
  import opened Text

  type Path = Bytes

  datatype File = File(mode: nat, data: Bytes)
  datatype Entry = Entry(path: Path, file: File)

  const MAX_TAR_BYTES: nat := 400 * 1024 * 1024
  const MAX_SAFE_INTEGER: nat := 0x1F_FFFF_FFFF_FFFF
  const MODE_PLAIN: nat := 420
  const MODE_EXECUTABLE: nat := 493

  predicate ValidMode(mode: nat)
  {
    mode == MODE_PLAIN || mode == MODE_EXECUTABLE
  }

  predicate SafeOutputPath(path: Path)
  {
    SafePath(path, 255)
  }

  predicate EntryLess(a: Entry, b: Entry)
  {
    PathLess(a.path, b.path)
  }

  /** The keys of a JavaScript Map are distinct; its entries come in insertion order. */
  ghost predicate DistinctPaths(es: seq<Entry>)
  {
    forall i, j :: 0 <= i < |es| && 0 <= j < |es| && i != j ==> es[i].path != es[j].path
  }

  ghost function MapOf(es: seq<Entry>): (m: map<Path, File>)
    ensures forall p :: p in m <==> exists i :: 0 <= i < |es| && es[i].path == p
  {
    if es == [] then map[]
    else
      var m := MapOf(es[..|es| - 1])[es[|es| - 1].path := es[|es| - 1].file];
      m
  }

  // ---------------------------------------------------------------- octal fields

  /** `value.toString(8)`. */
  function OctalDigits(value: nat): (r: Bytes)
    ensures |r| >= 1
    ensures forall i :: 0 <= i < |r| ==> 0x30 <= r[i] <= 0x37
  {
    if value < 8 then [0x30 + value] else OctalDigits(value / 8) + [0x30 + value % 8]
  }

  function Repeat(b: Byte, n: nat): (r: Bytes)
    ensures |r| == n && forall i :: 0 <= i < n ==> r[i] == b
  {
    seq(n, _ => b)
  }

  /** `value.toString(8).padStart(width, "0")`, refused when it does not fit. */
  function OctalText(value: nat, width: nat): (r: Result<Bytes>)
    ensures r.Ok? ==> |r.value| == width
    ensures r.Ok? ==> forall i :: 0 <= i < width ==> 0x30 <= r.value[i] <= 0x37
  {
    var digits := OctalDigits(value);
    if |digits| <= width then Ok(Repeat(0x30, width - |digits|) + digits) else Failed
  }

  /** `Number.parseInt(text, 8)` on octal digits. */
  function OctalValue(b: Bytes): nat
    requires forall i :: 0 <= i < |b| ==> 0x30 <= b[i] <= 0x37
  {
    if b == [] then 0 else 8 * OctalValue(b[..|b| - 1]) + (b[|b| - 1] - 0x30)
  }

  lemma {:induction false} OctalDigitsValue(value: nat)
    ensures OctalValue(OctalDigits(value)) == value
  {
    if value >= 8 {
      OctalDigitsValue(value / 8);
      assert OctalDigits(value)[..|OctalDigits(value)| - 1] == OctalDigits(value / 8);
    } else {
      assert OctalDigits(value)[..0] == [];
    }
  }

  lemma {:induction false} LeadingZeros(n: nat, b: Bytes)
    requires Digits(b)
    ensures OctalValue(Repeat(0x30, n) + b) == OctalValue(b)
    decreases n + |b|
  {
    var whole := Repeat(0x30, n) + b;
    if b != [] {
      assert whole[..|whole| - 1] == Repeat(0x30, n) + b[..|b| - 1];
      LeadingZeros(n, b[..|b| - 1]);
    } else if n > 0 {
      assert whole[..n - 1] == Repeat(0x30, n - 1) + [];
      LeadingZeros(n - 1, []);
    }
  }

  lemma OctalTextValue(value: nat, width: nat)
    requires OctalText(value, width).Ok?
    ensures OctalValue(OctalText(value, width).value) == value
  {
    OctalDigitsValue(value);
    LeadingZeros(width - |OctalDigits(value)|, OctalDigits(value));
  }

  lemma {:induction false} OctalFits(value: nat, width: nat)
    requires width >= 1
    ensures OctalText(value, width).Ok? <==> value < Pow(8, width)
  {
    if width == 1 {
      assert Pow(8, 1) == 8 * Pow(8, 0);
    } else if value >= 8 {
      OctalFits(value / 8, width - 1);
    } else {
      assert Pow(8, width - 1) >= 1 by { PowPositive(width - 1); }
    }
  }

  lemma {:induction false} PowPositive(n: nat)
    ensures Pow(8, n) >= 1
  {
    if n > 0 {
      PowPositive(n - 1);
    }
  }

  // ---------------------------------------------------------------- writing a header

  datatype Split = Split(name: Bytes, prefix: Bytes)

  /** The first slash, from position `i` on, that leaves a short enough prefix and name. */
  function FindSplit(path: Path, i: nat): (r: Result<Split>)
    requires i <= |path|
    ensures r.Ok? ==> path == r.value.prefix + [SLASH] + r.value.name
    ensures r.Ok? ==> |r.value.prefix| <= 155 && |r.value.name| <= 100
    ensures r.Ok? <==> exists k :: i <= k < |path| && path[k] == SLASH && k <= 155 && |path| - k - 1 <= 100
    decreases |path| - i
  {
    if i == |path| then Failed
    else if path[i] == SLASH && i <= 155 && |path| - i - 1 <= 100 then
      Ok(Split(path[i + 1..], path[..i]))
    else FindSplit(path, i + 1)
  }

  function SplitTarPath(path: Path): (r: Result<Split>)
    ensures r.Ok? ==> |r.value.prefix| <= 155 && |r.value.name| <= 100
    ensures r.Ok? && |path| <= 100 ==> r.value == Split(path, [])
    ensures r.Ok? && |path| > 100 ==> path == r.value.prefix + [SLASH] + r.value.name
  {
    if |path| <= 100 then Ok(Split(path, [])) else FindSplit(path, 0)
  }

  /** A slash that leaves a prefix and a name that fit their fields. */
  predicate SplitsAt(path: Path, k: nat)
  {
    k < |path| && path[k] == SLASH && k <= 155 && |path| - k - 1 <= 100
  }

  lemma FindStep(path: Path, i: nat)
    requires i <= |path|
    ensures i == |path| ==> FindSplit(path, i) == Failed
    ensures i < |path| && SplitsAt(path, i) ==> FindSplit(path, i) == Ok(Split(path[i + 1..], path[..i]))
    ensures i < |path| && !SplitsAt(path, i) ==> FindSplit(path, i) == FindSplit(path, i + 1)
  {
  }

  lemma {:induction false} FindsFirst(path: Path, i: nat)
    requires i <= |path|
    ensures FindSplit(path, i).Failed? <==> forall k :: i <= k < |path| ==> !SplitsAt(path, k)
    ensures FindSplit(path, i).Ok? ==>
      var k := |FindSplit(path, i).value.prefix|;
      i <= k && SplitsAt(path, k) && FindSplit(path, i).value == Split(path[k + 1..], path[..k]) &&
      forall j :: i <= j < k ==> !SplitsAt(path, j)
    decreases |path| - i
  {
    hide FindSplit, SplitsAt;
    FindStep(path, i);
    if i < |path| && !SplitsAt(path, i) {
      FindsFirst(path, i + 1);
    } else if i < |path| {
      assert |path[..i]| == i;
    }
  }

  /**
   A path of at most 100 bytes is kept whole. A longer one is cut at the first slash that leaves a prefix and a name
   that fit, and refused exactly if there is none.
   */
  lemma SplitTarPathExact(path: Path)
    ensures |path| <= 100 ==> SplitTarPath(path) == Ok(Split(path, []))
    ensures SplitTarPath(path).Failed? <==> |path| > 100 && forall k :: 0 <= k < |path| ==> !SplitsAt(path, k)
    ensures |path| > 100 && SplitTarPath(path).Ok? ==>
      var k := |SplitTarPath(path).value.prefix|;
      SplitsAt(path, k) && SplitTarPath(path).value == Split(path[k + 1..], path[..k]) &&
      forall j :: 0 <= j < k ==> !SplitsAt(path, j)
  {
    FindsFirst(path, 0);
  }

  const USTAR: Bytes := [0x75, 0x73, 0x74, 0x61, 0x72]
  const VERSION: Bytes := [0x30, 0x30]
  const ROOT: Bytes := [0x72, 0x6F, 0x6F, 0x74]

  /** Every field of a header, with the checksum field still blank. */
  function Unsummed(split: Split, mode: Bytes, size: Bytes): (h: Bytes)
    requires |split.name| <= 100 && |split.prefix| <= 155 && |mode| == 7 && |size| == 11
    ensures |h| == 512
  {
    var h := Put(Zeros(512), 0, split.name);
    var h := Put(h, 100, mode);
    var h := Put(h, 108, Repeat(0x30, 7));
    var h := Put(h, 116, Repeat(0x30, 7));
    var h := Put(h, 124, size);
    var h := Put(h, 136, Repeat(0x30, 11));
    var h := Put(h, 148, Repeat(0x20, 8));
    var h := Put(h, 156, [0x30]);
    var h := Put(h, 257, USTAR);
    var h := Put(h, 263, VERSION);
    var h := Put(h, 265, ROOT);
    var h := Put(h, 297, ROOT);
    Put(h, 345, split.prefix)
  }

  /** Six digits always hold the sum of 512 bytes, so a checksum never fails to fit. */
  lemma ChecksumFits(h: Bytes)
    requires |h| == 512
    ensures OctalText(Sum(h), 6).Ok?
  {
    SumBound(h);
    OctalFits(Sum(h), 6);
    assert Pow(8, 6) == 262144;
  }

  function Checksum(h: Bytes): (r: Bytes)
    requires |h| == 512
    ensures |r| == 8
  {
    ChecksumFits(h);
    OctalText(Sum(h), 6).value + [0, 0x20]
  }

  predicate Encodable(e: Entry)
  {
    && SplitTarPath(e.path).Ok?
    && OctalText(e.file.mode, 7).Ok?
    && OctalText(|e.file.data|, 11).Ok?
  }

  function Header(e: Entry): (h: Bytes)
    requires Encodable(e)
    ensures |h| == 512
  {
    var h := Unsummed(SplitTarPath(e.path).value, OctalText(e.file.mode, 7).value,
                      OctalText(|e.file.data|, 11).value);
    Put(h, 148, Checksum(h))
  }

  function Padding(size: nat): (n: nat)
    ensures n < 512 && (size + n) % 512 == 0
  {
    (512 - size % 512) % 512
  }

  /** Header, contents and padding; an entry that cannot be encoded makes `packageTar` throw. */
  function Block(e: Entry): (b: Bytes)
    ensures Encodable(e) ==> |b| == 512 + |e.file.data| + Padding(|e.file.data|)
  {
    if Encodable(e) then Header(e) + e.file.data + Zeros(Padding(|e.file.data|)) else []
  }

  function Body(es: seq<Entry>): (b: Bytes)
  {
    if es == [] then [] else Block(es[0]) + Body(es[1..])
  }

  lemma {:induction false} BodyConcat(a: seq<Entry>, b: seq<Entry>)
    ensures Body(a + b) == Body(a) + Body(b)
  {
    hide Block;
    if a == [] {
      assert a + b == b;
    } else {
      assert (a + b)[1..] == a[1..] + b;
      BodyConcat(a[1..], b);
    }
  }

  /** What `packageTar` returns for the entries of a Map. */
  function PackageTar(es: seq<Entry>): (r: Result<Bytes>)
  {
    var sorted := Sort(EntryLess, es);
    if (forall e :: e in sorted ==> Encodable(e)) && |Body(sorted)| + 1024 <= MAX_TAR_BYTES
    then Ok(Body(sorted) + Zeros(1024))
    else Failed
  }

  // ---------------------------------------------------------------- reading a header

  /** `target.indexOf(0, from)`. */
  function IndexOfNul(h: Bytes, from: nat): (r: int)
    requires from <= |h|
    ensures r == -1 || from <= r < |h|
    ensures r == -1 ==> 0 !in h[from..]
    ensures r != -1 ==> h[r] == 0 && 0 !in h[from..r]
    decreases |h| - from
  {
    if from == |h| then -1 else if h[from] == 0 then from else IndexOfNul(h, from + 1)
  }

  function TarText(h: Bytes, offset: nat, length: nat): (r: Result<Bytes>)
    requires offset + length <= |h|
  {
    var end := IndexOfNul(h, offset);
    var boundedEnd := if end == -1 || end > offset + length then offset + length else end;
    Decode(h[offset..boundedEnd])
  }

  /** The white space `String.trim` removes, by its UTF-8 bytes. */
  predicate WhiteSpace(c: Bytes)
  {
    || (|c| == 1 && (9 <= c[0] <= 13 || c[0] == 0x20))
    || c == [0xC2, 0xA0] || c == [0xE1, 0x9A, 0x80]
    || (|c| == 3 && c[0] == 0xE2 && c[1] == 0x80 && (0x80 <= c[2] <= 0x8A || 0xA8 <= c[2] <= 0xA9 || c[2] == 0xAF))
    || c == [0xE2, 0x81, 0x9F] || c == [0xE3, 0x80, 0x80] || c == BOM
  }

  /** White space in the first, or in the last, `n` bytes. */
  predicate BlankStart(b: Bytes, n: nat)
  {
    1 <= n <= |b| && WhiteSpace(b[..n])
  }

  predicate BlankEnd(b: Bytes, n: nat)
  {
    1 <= n <= |b| && WhiteSpace(b[|b| - n..])
  }

  function TrimStart(b: Bytes): (r: Bytes)
  {
    if BlankStart(b, 1) then TrimStart(b[1..])
    else if BlankStart(b, 2) then TrimStart(b[2..])
    else if BlankStart(b, 3) then TrimStart(b[3..])
    else b
  }

  function TrimEnd(b: Bytes): (r: Bytes)
  {
    if BlankEnd(b, 1) then TrimEnd(b[..|b| - 1])
    else if BlankEnd(b, 2) then TrimEnd(b[..|b| - 2])
    else if BlankEnd(b, 3) then TrimEnd(b[..|b| - 3])
    else b
  }

  function ParseTarOctal(h: Bytes, offset: nat, length: nat): (r: Result<nat>)
    requires offset + length <= |h|
    ensures r.Ok? ==> r.value <= MAX_SAFE_INTEGER
  {
    var raw :- TarText(h, offset, length);
    var text := TrimEnd(TrimStart(raw));
    if text != [] && forall i :: 0 <= i < |text| ==> 0x30 <= text[i] <= 0x37 then
      if OctalValue(text) <= MAX_SAFE_INTEGER then Ok(OctalValue(text)) else Failed
    else Failed
  }

  /** Nothing but white space. */
  ghost predicate Blank(b: Bytes)
    decreases |b|
  {
    b == [] || exists n: nat :: BlankStart(b, n) && Blank(b[n..])
  }

  lemma {:induction false} BlankGrows(b: Bytes, c: Bytes)
    requires Blank(b) && WhiteSpace(c)
    ensures Blank(b + c)
    decreases |b|
  {
    hide WhiteSpace;
    WhiteSpaceIsShort(c);
    if b == [] {
      assert (b + c)[..|c|] == c && (b + c)[|c|..] == [];
      assert BlankStart(b + c, |c|);
    } else {
      var n: nat :| BlankStart(b, n) && Blank(b[n..]);
      BlankGrows(b[n..], c);
      assert (b + c)[..n] == b[..n] && (b + c)[n..] == b[n..] + c;
      assert BlankStart(b + c, n);
    }
  }

  lemma {:induction false} TrimmedStart(b: Bytes) returns (k: nat)
    ensures k <= |b| && TrimStart(b) == b[k..] && Blank(b[..k])
    ensures forall n: nat :: !BlankStart(b[k..], n)
  {
    hide WhiteSpace;
    var n := if BlankStart(b, 1) then 1 else if BlankStart(b, 2) then 2 else if BlankStart(b, 3) then 3 else 0;
    if n == 0 {
      NothingBlank(b);
      k := 0;
      assert b[0..] == b;
    } else {
      var j := TrimmedStart(b[n..]);
      k := n + j;
      assert b[n..][j..] == b[k..] && b[..k][..n] == b[..n] && b[..k][n..] == b[n..][..j];
      assert BlankStart(b[..k], n);
    }
  }

  lemma BlankEndIs(b: Bytes, n: nat)
    requires BlankEnd(b, n)
    ensures 1 <= n <= |b| && WhiteSpace(b[|b| - n..])
  {
  }

  lemma BlankIsShort(b: Bytes, n: nat)
    ensures BlankStart(b, n) || BlankEnd(b, n) ==> n == 1 || n == 2 || n == 3
  {
    hide WhiteSpace;
    if n <= |b| {
      WhiteSpaceIsShort(b[..n]);
      WhiteSpaceIsShort(b[|b| - n..]);
    }
  }

  lemma NothingBlank(b: Bytes)
    ensures !BlankStart(b, 1) && !BlankStart(b, 2) && !BlankStart(b, 3) ==> forall n: nat :: !BlankStart(b, n)
    ensures !BlankEnd(b, 1) && !BlankEnd(b, 2) && !BlankEnd(b, 3) ==> forall n: nat :: !BlankEnd(b, n)
  {
    hide BlankStart, BlankEnd;
    forall n: nat ensures BlankStart(b, n) || BlankEnd(b, n) ==> n == 1 || n == 2 || n == 3 {
      BlankIsShort(b, n);
    }
  }

  lemma {:induction false} TrimmedEnd(b: Bytes) returns (k: nat)
    ensures k <= |b| && TrimEnd(b) == b[..k] && Blank(b[k..])
    ensures forall n: nat :: !BlankEnd(b[..k], n)
  {
    hide WhiteSpace, BlankEnd;
    var n := if BlankEnd(b, 1) then 1 else if BlankEnd(b, 2) then 2 else if BlankEnd(b, 3) then 3 else 0;
    if n == 0 {
      NothingBlank(b);
      k := |b|;
      assert b[..k] == b;
    } else {
      BlankEndIs(b, n);
      var rest := b[..|b| - n];
      k := TrimmedEnd(rest);
      assert rest[..k] == b[..k] && b[k..] == rest[k..] + b[|b| - n..];
      BlankGrows(rest[k..], b[|b| - n..]);
    }
  }

  /** A trim takes away white space at both ends, and leaves nothing there that it could take. */
  lemma TrimExactly(b: Bytes) returns (i: nat, j: nat)
    ensures i <= j <= |b| && TrimEnd(TrimStart(b)) == b[i..j]
    ensures Blank(b[..i]) && Blank(b[j..])
    ensures forall n: nat :: !BlankStart(b[i..j], n) && !BlankEnd(b[i..j], n)
  {
    hide WhiteSpace, Blank, TrimStart, TrimEnd;
    i := TrimmedStart(b);
    var k := TrimmedEnd(b[i..]);
    j := i + k;
    assert b[i..][..k] == b[i..j] && b[i..][k..] == b[j..];
    forall n: nat ensures !BlankStart(b[i..j], n) {
      if n <= k {
        assert b[i..j][..n] == b[i..][..n] && !BlankStart(b[i..], n);
      }
    }
  }

  lemma WhiteSpaceIsShort(c: Bytes)
    ensures WhiteSpace(c) ==> 1 <= |c| <= 3
  {
  }

  datatype Parsed = Parsed(path: Path, size: nat, mode: nat)

  function JoinPath(prefix: Bytes, name: Bytes): (r: Path)
  {
    if prefix != [] then prefix + [SLASH] + name else name
  }

  function ParseHeader(h: Bytes): (r: Result<Parsed>)
    requires |h| == 512
  {
    var magic :- TarText(h, 257, 6);
    if magic != USTAR || (h[156] != 0 && h[156] != 0x30) then Failed
    else
      var name :- TarText(h, 0, 100);
      var prefix :- TarText(h, 345, 155);
      var size :- ParseTarOctal(h, 124, 12);
      var mode :- ParseTarOctal(h, 100, 8);
      Ok(Parsed(JoinPath(prefix, name), size, mode))
  }

  /** `unpackTar`, from the header at `offset` on, with `files` already read. */
  function UnpackFrom(tar: Bytes, offset: nat, files: map<Path, File>): (r: Result<map<Path, File>>)
    decreases |tar| - offset
  {
    if offset + 512 > |tar| then Failed
    else
      var h := tar[offset..offset + 512];
      if h == Zeros(512) then
        if offset + 1024 == |tar| && tar[offset + 512..offset + 1024] == Zeros(512) then Ok(files) else Failed
      else
        var p :- ParseHeader(h);
        var data := offset + 512;
        if !SafeOutputPath(p.path) || p.path in files || data + p.size > |tar| || !ValidMode(p.mode) then Failed
        else UnpackFrom(tar, data + p.size + Padding(p.size),
                        files[p.path := File(p.mode, tar[data..data + p.size])])
  }

  function UnpackTar(tar: Bytes): (r: Result<map<Path, File>>)
  {
    UnpackFrom(tar, 0, map[])
  }

  // ---------------------------------------------------------------- reading back what was written

  /** The bytes of `h` from `offset` on start with `text`. */
  predicate Holds(h: Bytes, offset: nat, text: Bytes)
  {
    offset + |text| <= |h| && forall i :: 0 <= i < |text| ==> h[offset + i] == text[i]
  }

  /** A field holding `text` and then, if there is room, a NUL reads back as `text` up to its first NUL. */
  lemma FieldReads(h: Bytes, offset: nat, length: nat, text: Bytes)
    requires offset + length <= |h|
    requires |text| <= length && Holds(h, offset, text)
    requires |text| < length ==> h[offset + |text|] == 0
    ensures TarText(h, offset, length) == Decode(UpToNul(text))
  {
    hide Decode, UpToNul, IndexOfNul;
    var r := UpToNul(text);
    FirstNul(h, offset, text, length);
    assert h[offset..offset + |r|] == r;
  }

  lemma FirstNul(h: Bytes, offset: nat, text: Bytes, length: nat)
    requires offset + length <= |h|
    requires |text| <= length && Holds(h, offset, text)
    requires |text| < length ==> h[offset + |text|] == 0
    ensures var end := IndexOfNul(h, offset); var r := UpToNul(text);
      if end == -1 || end > offset + length then |r| == length else end == offset + |r|
  {
    hide UpToNul, IndexOfNul;
    var r := UpToNul(text);
    var end := IndexOfNul(h, offset);
    assert forall i :: 0 <= i < |r| ==> h[offset + i] == r[i];
    forall k | offset <= k < offset + |r| ensures h[k] == r[k - offset] {
      assert h[offset + (k - offset)] == r[k - offset];
    }
    if |r| < length {
      assert h[offset + |r|] == 0;
    }
    if end != -1 {
      assert h[offset..end] == h[offset..][..end - offset];
      assert forall i :: offset <= i < end ==> h[i] == h[offset..end][i - offset] && h[i] != 0;
    } else {
      assert forall i :: offset <= i < |h| ==> h[i] == h[offset..][i - offset] && h[i] != 0;
    }
  }

  predicate Digits(b: Bytes)
  {
    forall i :: 0 <= i < |b| ==> 0x30 <= b[i] <= 0x37
  }

  lemma NotWhiteSpace(c: Bytes)
    requires c != [] && (Digits(c[..1]) || Digits(c[|c| - 1..]))
    ensures !WhiteSpace(c)
  {
    assert Digits(c[..1]) ==> 0x30 <= c[..1][0] <= 0x37;
    assert Digits(c[|c| - 1..]) ==> 0x30 <= c[|c| - 1..][0] <= 0x37;
  }

  lemma {:induction false} DigitsKept(b: Bytes)
    requires Digits(b) && b != []
    ensures StripBom(b) == b
    ensures TrimStart(b) == b
    ensures TrimEnd(b) == b
  {
    hide WhiteSpace;
    assert b[0] != BOM[0];
    forall k | 1 <= k <= |b| ensures !WhiteSpace(b[..k]) && !WhiteSpace(b[|b| - k..]) {
      assert b[..k][..1] == b[..1];
      assert b[|b| - k..][k - 1..] == b[|b| - 1..];
      NotWhiteSpace(b[..k]);
      NotWhiteSpace(b[|b| - k..]);
    }
  }

  lemma OctalFieldReads(h: Bytes, offset: nat, length: nat, value: nat)
    requires 1 < length <= 12 && offset + length <= |h|
    requires OctalText(value, length - 1).Ok?
    requires Holds(h, offset, OctalText(value, length - 1).value)
    requires h[offset + length - 1] == 0
    ensures ParseTarOctal(h, offset, length) == Ok(value)
  {
    hide OctalText, TarText, StripBom, TrimStart, TrimEnd, OctalValue, Pow, Utf8, UpToNul;
    var text := OctalText(value, length - 1).value;
    FieldReads(h, offset, length, text);
    AsciiUtf8(text);
    DigitsKept(text);
    OctalTextValue(value, length - 1);
    OctalBelow(value, length - 1);
    assert 0 !in text;
  }

  lemma OctalBelow(value: nat, width: nat)
    requires 1 <= width <= 11 && OctalText(value, width).Ok?
    ensures value <= MAX_SAFE_INTEGER
  {
    OctalFits(value, width);
    PowMonotone(width, 11);
    assert Pow(8, 11) == 8589934592;
  }

  lemma {:induction false} PowMonotone(a: nat, b: nat)
    requires a <= b
    ensures Pow(8, a) <= Pow(8, b)
    decreases b
  {
    if a < b {
      PowPositive(b - 1);
      PowMonotone(a, b - 1);
    }
  }

  /** The path a reader sees in place of `path`: every field cut at its first NUL and freed of a BOM. */
  function Reread(path: Path): (r: Path)
  {
    match SplitTarPath(path)
    case Ok(split) => JoinPath(StripBom(UpToNul(split.prefix)), StripBom(UpToNul(split.name)))
    case Failed => path
  }

  lemma SplitUtf8(path: Path)
    requires Utf8(path) && SplitTarPath(path).Ok?
    ensures Utf8(SplitTarPath(path).value.name) && Utf8(SplitTarPath(path).value.prefix)
  {
    var split := SplitTarPath(path).value;
    if |path| > 100 {
      CutAtAscii(split.prefix, SLASH, split.name);
    }
  }

  /** Where each field the reader looks at sits in a written header. */
  lemma HeaderLayout(e: Entry)
    requires Encodable(e)
    ensures var split := SplitTarPath(e.path).value; var h := Header(e);
      && Holds(h, 0, split.name) && (|split.name| < 100 ==> h[|split.name|] == 0)
      && Holds(h, 345, split.prefix) && (|split.prefix| < 155 ==> h[345 + |split.prefix|] == 0)
      && Holds(h, 100, OctalText(e.file.mode, 7).value) && h[107] == 0
      && Holds(h, 124, OctalText(|e.file.data|, 11).value) && h[135] == 0
      && Holds(h, 257, USTAR) && h[262] == 0
      && h[156] == 0x30
  {
    hide Put, OctalText, Checksum, SplitTarPath, Zeros, Repeat;
  }

  /**
   What the ustar format asks of the other fields, byte by byte: user and group 0, time 0, an ordinary file, version
   "00", owner and group "root", and NUL wherever nothing is written.
   */
  lemma HeaderRest(e: Entry)
    requires Encodable(e)
    ensures var split := SplitTarPath(e.path).value; var h := Header(e);
      && (forall i :: 108 <= i < 115 || 116 <= i < 123 || 136 <= i < 147 ==> h[i] == 0x30)
      && h[115] == h[123] == h[147] == 0 && h[156] == 0x30
      && h[257..265] == [0x75, 0x73, 0x74, 0x61, 0x72, 0, 0x30, 0x30]
      && h[265..269] == h[297..301] == [0x72, 0x6F, 0x6F, 0x74]
      && (forall i :: |split.name| <= i < 100 || 157 <= i < 257 || 269 <= i < 297 || 301 <= i < 345 ==> h[i] == 0)
      && (forall i :: 345 + |split.prefix| <= i < 512 ==> h[i] == 0)
  {
    hide Put, OctalText, Checksum, SplitTarPath, Zeros, Repeat;
  }

  /** A header with blanks in place of its checksum. */
  function Blanked(h: Bytes): (r: Bytes)
    requires |h| == 512
    ensures |r| == 512 && (forall i :: 0 <= i < 512 ==> r[i] == if 148 <= i < 156 then 0x20 else h[i])
  {
    h[..148] + [0x20, 0x20, 0x20, 0x20, 0x20, 0x20, 0x20, 0x20] + h[156..]
  }

  /**
   The checksum of a header is the sum of all its bytes, those of the checksum itself taken as blanks, in six octal
   digits, a NUL and a blank.
   */
  lemma HeaderSummed(e: Entry)
    requires Encodable(e)
    ensures var h := Header(e);
      Digits(h[148..154]) && OctalValue(h[148..154]) == Sum(Blanked(h)) && h[154] == 0 && h[155] == 0x20
  {
    hide Put, OctalText, SplitTarPath, Zeros, Repeat, Sum, OctalValue;
    var u := Unsummed(SplitTarPath(e.path).value, OctalText(e.file.mode, 7).value, OctalText(|e.file.data|, 11).value);
    var h := Header(e);
    ChecksumFits(u);
    assert Blanked(h) == u by {
      UnsummedBlank(SplitTarPath(e.path).value, OctalText(e.file.mode, 7).value, OctalText(|e.file.data|, 11).value);
    }
    assert h[148..154] == OctalText(Sum(u), 6).value;
    OctalTextValue(Sum(u), 6);
  }

  lemma UnsummedBlank(split: Split, mode: Bytes, size: Bytes)
    requires |split.name| <= 100 && |split.prefix| <= 155 && |mode| == 7 && |size| == 11
    ensures forall i :: 148 <= i < 156 ==> Unsummed(split, mode, size)[i] == 0x20
  {
    hide Put, Zeros, Repeat;
  }

  lemma HeaderReads(e: Entry)
    requires Encodable(e) && Utf8(e.path)
    ensures ParseHeader(Header(e)) == Ok(Parsed(Reread(e.path), |e.file.data|, e.file.mode))
    ensures Header(e) != Zeros(512)
  {
    hide Header, TarText, Utf8, UpToNul, OctalText, ParseTarOctal, Zeros, SplitTarPath;
    var h := Header(e);
    var split := SplitTarPath(e.path).value;
    HeaderLayout(e);
    SplitUtf8(e.path);
    UpToNulUtf8(split.name);
    UpToNulUtf8(split.prefix);
    FieldReads(h, 0, 100, split.name);
    FieldReads(h, 345, 155, split.prefix);
    FieldReads(h, 257, 6, USTAR);
    AsciiUtf8(USTAR);
    assert 0 !in USTAR;
    OctalFieldReads(h, 124, 12, |e.file.data|);
    OctalFieldReads(h, 100, 8, e.file.mode);
  }
}
