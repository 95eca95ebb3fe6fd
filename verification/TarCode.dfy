/** `packageTar` and `unpackTar` as the loops over byte buffers they are. */
module TarCode {
  import opened Bytes
  import opened Sorting
  import opened Text
  import opened Tar

  method WriteTarText(target: array<Byte>, offset: nat, length: nat, value: Bytes) returns (ok: bool)
    requires offset + length <= target.Length
    modifies target
    ensures ok <==> |value| <= length
    ensures ok ==> target[..] == Put(old(target[..]), offset, value)
    ensures !ok ==> target[..] == old(target[..])
  {
    if |value| > length {
      return false;
    }
    for i := 0 to |value|
      invariant forall k :: 0 <= k < target.Length ==>
        target[k] == if offset <= k < offset + i then value[k - offset] else old(target[k])
    {
      target[offset + i] := value[i];
    }
    return true;
  }

  method WriteTarOctal(target: array<Byte>, offset: nat, length: nat, value: nat) returns (ok: bool)
    requires length >= 1 && offset + length <= target.Length
    modifies target
    ensures ok <==> OctalText(value, length - 1).Ok?
    ensures ok ==> target[..] == Put(old(target[..]), offset, OctalText(value, length - 1).value)
  {
    match OctalText(value, length - 1) {
      case Ok(text) => ok := WriteTarText(target, offset, length, text);
      case Failed => ok := false;
    }
  }

  /** The sum of all 512 bytes, in six octal digits, then a NUL and a blank. */
  method WriteTarChecksum(target: array<Byte>)
    requires target.Length == 512
    modifies target
    ensures target[..] == Put(old(target[..]), 148, Checksum(old(target[..])))
  {
    hide OctalText, Put;
    var value: nat := 0;
    for k := 0 to 512
      invariant value == Sum(target[..k]) && target[..] == old(target[..])
    {
      assert target[..k + 1] == target[..k] + [target[k]];
      SumConcat(target[..k], [target[k]]);
      SumOne(target[k]);
      value := value + target[k] as nat;
    }
    assert target[..512] == target[..];
    ChecksumFits(target[..]);
    var text := OctalText(value, 6);
    var ok := WriteTarText(target, 148, 8, text.value + [0, 0x20]);
  }

  lemma ZeroText(width: nat)
    requires width >= 1
    ensures OctalText(0, width) == Ok(Repeat(0x30, width))
  {
    assert OctalDigits(0) == [0x30];
    assert Repeat(0x30, width - 1) + [0x30] == Repeat(0x30, width);
  }

  /** The fixed fields, in the order the source writes them. */
  method WriteHeader(e: Entry) returns (r: Result<Bytes>)
    ensures r.Ok? <==> Encodable(e)
    ensures r.Ok? ==> r.value == Header(e)
  {
    hide Put, OctalText, Checksum, FindSplit;
    match SplitTarPath(e.path) {
      case Failed => return Failed;
      case Ok(split) =>
        var header := new Byte[512](_ => 0);
        ghost var mode, size := OctalText(e.file.mode, 7), OctalText(|e.file.data|, 11);
        assert header[..] == Zeros(512);
        var ok := WriteTarText(header, 0, 100, split.name);
        ok := WriteTarOctal(header, 100, 8, e.file.mode);
        if !ok { return Failed; }
        ZeroText(7);
        ok := WriteTarOctal(header, 108, 8, 0);
        ok := WriteTarOctal(header, 116, 8, 0);
        ok := WriteTarOctal(header, 124, 12, |e.file.data|);
        if !ok { return Failed; }
        ZeroText(11);
        ok := WriteTarOctal(header, 136, 12, 0);
        ok := WriteTarText(header, 148, 8, Repeat(0x20, 8));
        ok := WriteTarText(header, 156, 1, [0x30]);
        ok := WriteTarText(header, 257, 6, [0x75, 0x73, 0x74, 0x61, 0x72]);
        ok := WriteTarText(header, 263, 2, [0x30, 0x30]);
        ok := WriteTarText(header, 265, 32, [0x72, 0x6F, 0x6F, 0x74]);
        ok := WriteTarText(header, 297, 32, [0x72, 0x6F, 0x6F, 0x74]);
        ok := WriteTarText(header, 345, 155, split.prefix);
        assert header[..] == Unsummed(split, mode.value, size.value);
        WriteTarChecksum(header);
        return Ok(header[..]);
    }
  }

  method PackTar(entries: seq<Entry>) returns (r: Result<Bytes>)
    ensures r == PackageTar(entries)
  {
    hide Encodable, Block, Sort, Header, PathLess;
    var sorted := Sort(EntryLess, entries);
    var chunks: Bytes := [];
    var total := 0;
    for k := 0 to |sorted|
      invariant chunks == Body(sorted[..k]) && total == |chunks|
      invariant forall i :: 0 <= i < k ==> Encodable(sorted[i])
    {
      var e := sorted[k];
      var header := WriteHeader(e);
      if header.Failed? {
        assert e in sorted && !Encodable(e);
        return Failed;
      }
      var padding := (512 - |e.file.data| % 512) % 512;
      BlockIs(e);
      BodyGrows(sorted, k);
      chunks := chunks + header.value + e.file.data + Zeros(padding);
      total := total + 512 + |e.file.data| + padding;
      assert chunks == Body(sorted[..k]) + Block(e);
      if total > 419430400 {
        return Failed;
      }
    }
    assert sorted[..|sorted|] == sorted;
    if total + 1024 > 419430400 {
      return Failed;
    }
    return Ok(chunks + Zeros(1024));
  }

  lemma BlockIs(e: Entry)
    requires Encodable(e)
    ensures Block(e) == Header(e) + e.file.data + Zeros(Padding(|e.file.data|))
  {
  }

  lemma BodyGrows(es: seq<Entry>, k: nat)
    requires k < |es|
    ensures Body(es[..k + 1]) == Body(es[..k]) + Block(es[k])
    ensures |Body(es)| >= |Body(es[..k + 1])|
  {
    hide Block;
    assert es[..k + 1] == es[..k] + [es[k]];
    BodyConcat(es[..k], [es[k]]);
    assert Body([es[k]]) == Block(es[k]) + [] by { assert [es[k]][1..] == []; }
    assert es == es[..k + 1] + es[k + 1..];
    BodyConcat(es[..k + 1], es[k + 1..]);
  }

  /** `tarText`: a field up to its first NUL. */
  method ReadTarText(h: Bytes, offset: nat, length: nat) returns (r: Result<Bytes>)
    requires offset + length <= |h|
    ensures r == TarText(h, offset, length)
  {
    hide Decode;
    var end := offset;
    while end < |h| && h[end] != 0
      invariant offset <= end <= |h| && IndexOfNul(h, offset) == IndexOfNul(h, end)
    {
      end := end + 1;
    }
    return Decode(h[offset..if end > offset + length then offset + length else end]);
  }

  /** `parseTarOctal`: octal digits between blanks, as a number a double holds exactly. */
  method ReadTarOctal(h: Bytes, offset: nat, length: nat) returns (r: Result<nat>)
    requires offset + length <= |h|
    ensures r == ParseTarOctal(h, offset, length)
  {
    hide TarText, TrimStart, TrimEnd;
    var raw := ReadTarText(h, offset, length);
    if raw.Failed? {
      return Failed;
    }
    var text := TrimEnd(TrimStart(raw.value));
    if |text| == 0 {
      return Failed;
    }
    var value: nat := 0;
    for k := 0 to |text|
      invariant Digits(text[..k]) && value == OctalValue(text[..k])
    {
      if text[k] < 0x30 || text[k] > 0x37 {
        return Failed;
      }
      assert text[..k + 1][..k] == text[..k];
      value := 8 * value + (text[k] as nat - 0x30);
    }
    assert text[..|text|] == text;
    if value > 9007199254740991 {
      return Failed;
    }
    return Ok(value);
  }

  /** The fields `unpackTar` takes from a header. */
  method ReadHeader(h: Bytes) returns (r: Result<Parsed>)
    requires |h| == 512
    ensures r == ParseHeader(h)
  {
    hide TarText, ParseTarOctal;
    var magic := ReadTarText(h, 257, 6);
    if magic != Ok([0x75, 0x73, 0x74, 0x61, 0x72]) || (h[156] != 0 && h[156] != 0x30) {
      return Failed;
    }
    var name := ReadTarText(h, 0, 100);
    var prefix := ReadTarText(h, 345, 155);
    var size := ReadTarOctal(h, 124, 12);
    var mode := ReadTarOctal(h, 100, 8);
    if name.Failed? || prefix.Failed? || size.Failed? || mode.Failed? {
      return Failed;
    }
    var path := if prefix.value == [] then name.value else prefix.value + [0x2F] + name.value;
    return Ok(Parsed(path, size.value, mode.value));
  }

  lemma PaddingIs(size: nat)
    ensures Padding(size) == (512 - size % 512) % 512
  {
  }

  lemma UnpackShort(tar: Bytes, offset: nat, files: map<Path, File>)
    requires offset + 512 > |tar|
    ensures UnpackFrom(tar, offset, files) == Failed
  {
  }

  lemma UnpackNext(tar: Bytes, offset: nat, files: map<Path, File>)
    requires offset + 512 <= |tar|
    ensures var h, r := tar[offset..offset + 512], UnpackFrom(tar, offset, files);
      && (h == Zeros(512) ==>
            r == if offset + 1024 == |tar| && tar[offset + 512..offset + 1024] == Zeros(512) then Ok(files) else Failed)
      && (h != Zeros(512) ==> match ParseHeader(h)
          case Failed => r == Failed
          case Ok(p) =>
            if !SafeOutputPath(p.path) || p.path in files || offset + 512 + p.size > |tar| || !ValidMode(p.mode) then r == Failed
            else r == UnpackFrom(tar, offset + 512 + p.size + Padding(p.size),
                                 files[p.path := File(p.mode, tar[offset + 512..offset + 512 + p.size])]))
  {
    hide ParseHeader, SafePath, Padding;
  }

  method ReadTar(tar: Bytes) returns (r: Result<map<Path, File>>)
    ensures r == UnpackTar(tar)
  {
    hide ParseHeader, SafePath, Padding, UnpackFrom;
    var files: map<Path, File> := map[];
    var offset := 0;
    while offset + 512 <= |tar|
      invariant UnpackTar(tar) == UnpackFrom(tar, offset, files)
      decreases |tar| - offset
    {
      var header := tar[offset..offset + 512];
      UnpackNext(tar, offset, files);
      if header == Zeros(512) {
        if offset + 1024 != |tar| || tar[offset + 512..offset + 1024] != Zeros(512) {
          return Failed;
        }
        return Ok(files);
      }
      var parsed := ReadHeader(header);
      match parsed {
        case Failed => return Failed;
        case Ok(p) =>
          var data := offset + 512;
          if !SafePath(p.path, 255) || p.path in files || data + p.size > |tar| || (p.mode != 420 && p.mode != 493) {
            return Failed;
          }
          files := files[p.path := File(p.mode, tar[data..data + p.size])];
          PaddingIs(p.size);
          offset := data + p.size + (512 - p.size % 512) % 512;
      }
    }
    assert UnpackFrom(tar, offset, files) == Failed by { UnpackShort(tar, offset, files); }
    return Failed;
  }
}
