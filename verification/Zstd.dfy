/**
 The raw Zstandard frame around the tar (sections 3.1.1.1 and 3.1.1.2 of RFC 8878): a header with
 a four-byte content size, then uncompressed blocks of at most 128 KiB, the last one flagged.
 */
module Zstd {
  import opened Bytes
  import opened Tar

  const RAW_BLOCK_BYTES: nat := 128 * 1024
  const MAX_ARCHIVE_BYTES: nat := 401 * 1024 * 1024
  const FRAME_START: Bytes := [0x28, 0xB5, 0x2F, 0xFD, 0xA0]

  function Min(a: nat, b: nat): nat
  {
    if a <= b then a else b
  }

  function BlockHeader(size: nat, last: bool): (r: Bytes)
    ensures |r| == 3
  {
    LittleEndian(8 * size + (if last then 1 else 0), 3)
  }

  /** The blocks that carry `input[offset..]`. */
  function Blocks(input: Bytes, offset: nat): (r: Bytes)
    requires offset <= |input|
    decreases |input| - offset
  {
    if offset == |input| then []
    else
      var size := Min(RAW_BLOCK_BYTES, |input| - offset);
      BlockHeader(size, offset + size == |input|) + input[offset..offset + size] + Blocks(input, offset + size)
  }

  function Frame(input: Bytes): (r: Bytes)
    ensures |r| == 9 + |Blocks(input, 0)|
  {
    FRAME_START + LittleEndian(|input|, 4) + Blocks(input, 0)
  }

  /** `rawZstd`. */
  function RawZstd(input: Bytes): (r: Result<Bytes>)
  {
    if |input| > MAX_TAR_BYTES || |Frame(input)| > MAX_ARCHIVE_BYTES then Failed else Ok(Frame(input))
  }

  datatype Blocked = Blocked(content: Bytes, offset: nat)

  /** The reader's loop over blocks, with `content` already read. */
  function ReadBlocks(archive: Bytes, offset: nat, content: Bytes): (r: Result<Blocked>)
    decreases |archive| - offset
  {
    if offset + 3 > |archive| then Failed
    else
      var header := FromLittleEndian(archive[offset..offset + 3]);
      var data := offset + 3;
      var size := header / 8;
      if (header / 2) % 4 != 0 || size > RAW_BLOCK_BYTES || data + size > |archive| then Failed
      else
        var content' := content + archive[data..data + size];
        if header % 2 == 1 then Ok(Blocked(content', data + size)) else ReadBlocks(archive, data + size, content')
  }

  /** The frame part of `unpackDeterministicTarZst`. */
  function Unframe(archive: Bytes): (r: Result<Bytes>)
  {
    if |archive| < 12 || |archive| > MAX_ARCHIVE_BYTES || archive[..5] != FRAME_START then Failed
    else
      var blocked :- ReadBlocks(archive, 9, []);
      if blocked.offset != |archive| || |blocked.content| != FromLittleEndian(archive[5..9]) then Failed
      else Ok(blocked.content)
  }

  // ---------------------------------------------------------------- size of a frame

  lemma {:induction false} BlocksSize(input: Bytes, offset: nat)
    requires offset <= |input|
    ensures var rest := |input| - offset;
      rest <= |Blocks(input, offset)| <= rest + 3 * (rest / RAW_BLOCK_BYTES) + 3
    ensures offset < |input| ==> |Blocks(input, offset)| >= |input| - offset + 3
    decreases |input| - offset
  {
    if offset < |input| {
      var size := Min(RAW_BLOCK_BYTES, |input| - offset);
      BlocksSize(input, offset + size);
    }
  }

  /** The 401 MiB guard never fires: one more MiB than the tar has room for every block header. */
  lemma FrameAlwaysFits(input: Bytes)
    ensures RawZstd(input).Ok? <==> |input| <= MAX_TAR_BYTES
    ensures RawZstd(input).Ok? ==> RawZstd(input).value == Frame(input)
  {
    BlocksSize(input, 0);
  }

  // ---------------------------------------------------------------- round trip

  lemma BlockHeaderReads(size: nat, last: bool)
    requires size <= RAW_BLOCK_BYTES
    ensures var header := FromLittleEndian(BlockHeader(size, last));
      header / 8 == size && (header / 2) % 4 == 0 && (header % 2 == 1 <==> last)
  {
    hide LittleEndian, FromLittleEndian;
    assert Pow(256, 3) == 16777216;
    LittleEndianRoundTrip(8 * size + (if last then 1 else 0), 3);
  }

  lemma {:induction false} BlocksRead(before: Bytes, input: Bytes, offset: nat, content: Bytes)
    requires offset < |input|
    ensures var archive := before + Blocks(input, offset);
      ReadBlocks(archive, |before|, content) == Ok(Blocked(content + input[offset..], |archive|))
    decreases |input| - offset
  {
    hide BlockHeader, FromLittleEndian;
    var archive := before + Blocks(input, offset);
    var size := Min(RAW_BLOCK_BYTES, |input| - offset);
    var last := offset + size == |input|;
    var header, data := BlockHeader(size, last), input[offset..offset + size];
    var rest := Blocks(input, offset + size);
    assert archive == before + header + data + rest;
    assert archive[|before|..|before| + 3] == header;
    assert archive[|before| + 3..|before| + 3 + size] == data;
    BlockHeaderReads(size, last);
    if last {
      assert rest == [];
      assert data == input[offset..];
    } else {
      BlocksRead(before + header + data, input, offset + size, content + data);
      assert content + data + input[offset + size..] == content + input[offset..];
    }
  }

  /** A frame gives its content back exactly when there is any: an empty input writes no block at all. */
  lemma FrameRoundTrip(input: Bytes)
    requires |input| <= MAX_TAR_BYTES
    ensures Unframe(Frame(input)) == Ok(input) <==> input != []
  {
    hide ReadBlocks;
    var archive := Frame(input);
    BlocksSize(input, 0);
    if input != [] {
      var before := FRAME_START + LittleEndian(|input|, 4);
      BlocksRead(before, input, 0, []);
      assert archive == before + Blocks(input, 0);
      assert archive[..5] == FRAME_START;
      assert archive[5..9] == LittleEndian(|input|, 4);
      assert Pow(256, 4) == 4294967296;
      LittleEndianRoundTrip(|input|, 4);
      assert [] + input[0..] == input;
    }
  }

  // ---------------------------------------------------------------- the format

  /**
   The frame header of RFC 8878: the magic number 0xFD2FB528, a descriptor that announces a content size of four bytes
   in a single segment, with no checksum, no dictionary and no reserved bit, and then that size.
   */
  lemma FrameHeaderIsStandard(input: Bytes)
    requires |input| < 0x1_0000_0000
    ensures var h := Frame(input);
      && |h| >= 9 && FromLittleEndian(h[..4]) == 0xFD2FB528
      && h[4] / 64 == 2 && h[4] / 32 % 2 == 1 && h[4] / 16 % 2 == 0 && h[4] / 8 % 2 == 0 && h[4] / 4 % 2 == 0 && h[4] % 4 == 0
      && FromLittleEndian(h[5..9]) == |input|
  {
    hide Blocks, LittleEndian;
    var h := Frame(input);
    assert h[..4] == [0x28, 0xB5, 0x2F, 0xFD];
    assert FromLittleEndian([0x28, 0xB5, 0x2F, 0xFD]) == 0xFD2FB528 by { MagicReads(); }
    assert h[5..9] == LittleEndian(|input|, 4);
    assert Pow(256, 4) == 4294967296;
    LittleEndianRoundTrip(|input|, 4);
  }

  lemma MagicReads()
    ensures FromLittleEndian([0x28, 0xB5, 0x2F, 0xFD]) == 0xFD2FB528
  {
    assert [0x28, 0xB5, 0x2F, 0xFD][1..] == [0xB5, 0x2F, 0xFD] && [0xB5, 0x2F, 0xFD][1..] == [0x2F, 0xFD];
    assert [0x2F, 0xFD][1..] == [0xFD] && [0xFD][1..] == [];
    assert FromLittleEndian([0xFD]) == 0xFD && FromLittleEndian([0x2F, 0xFD]) == 0xFD2F;
    assert FromLittleEndian([0xB5, 0x2F, 0xFD]) == 0xFD2FB5;
  }

  /**
   Every block header of it: a last-block flag that is set on the final block only, the raw block type 0, and a size of
   at most 128 KiB that is the number of bytes that follow; every block but the last is of that size.
   */
  lemma BlocksAreStandard(input: Bytes, offset: nat)
    requires offset < |input|
    ensures var b := Blocks(input, offset); var header := FromLittleEndian(b[..3]); var size := header / 8;
      && |b| >= 3 && header / 2 % 4 == 0 && 0 < size <= 131072 && offset + size <= |input|
      && (header % 2 == 1 <==> offset + size == |input|) && (header % 2 == 0 ==> size == 131072)
      && b[3..] == input[offset..offset + size] + Blocks(input, offset + size)
  {
    hide BlockHeader, FromLittleEndian;
    var size := Min(RAW_BLOCK_BYTES, |input| - offset);
    var h := BlockHeader(size, offset + size == |input|);
    BlockHeaderReads(size, offset + size == |input|);
    var b := Blocks(input, offset);
    assert b[..3] == h;
    assert b[3..] == input[offset..offset + size] + Blocks(input, offset + size);
  }

  // ---------------------------------------------------------------- the loops themselves

  method WriteRawZstd(input: Bytes) returns (r: Result<Bytes>)
    ensures r == RawZstd(input)
  {
    hide BlockHeader;
    if |input| > 419430400 {
      return Failed;
    }
    var chunks: Bytes := [0x28, 0xB5, 0x2F, 0xFD, 0xA0] + LittleEndian(|input|, 4);
    var total := |chunks|;
    var offset := 0;
    while offset < |input|
      invariant offset <= |input| && total == |chunks|
      invariant chunks + Blocks(input, offset) == Frame(input)
    {
      var size := Min(131072, |input| - offset);
      var header := BlockHeader(size, offset + size == |input|);
      chunks := chunks + header + input[offset..offset + size];
      total := total + 3 + size;
      offset := offset + size;
    }
    assert chunks + [] == chunks;
    if total > 420478976 {
      return Failed;
    }
    return Ok(chunks);
  }

  method ReadRawZstd(archive: Bytes) returns (r: Result<Bytes>)
    ensures r == Unframe(archive)
  {
    if |archive| < 12 || |archive| > 420478976 || archive[..5] != [0x28, 0xB5, 0x2F, 0xFD, 0xA0] {
      return Failed;
    }
    var expected := FromLittleEndian(archive[5..9]);
    var chunks: Bytes := [];
    var offset := 9;
    var last := false;
    while !last
      invariant 9 <= offset <= |archive|
      invariant ReadBlocks(archive, 9, []) ==
        if last then Ok(Blocked(chunks, offset)) else ReadBlocks(archive, offset, chunks)
      decreases !last, |archive| - offset
    {
      if offset + 3 > |archive| {
        return Failed;
      }
      var header := FromLittleEndian(archive[offset..offset + 3]);
      offset := offset + 3;
      last := header % 2 == 1;
      var kind, size := (header / 2) % 4, header / 8;
      if kind != 0 || size > 131072 || offset + size > |archive| {
        return Failed;
      }
      chunks := chunks + archive[offset..offset + size];
      offset := offset + size;
    }
    if offset != |archive| || |chunks| != expected {
      return Failed;
    }
    return Ok(chunks);
  }
}
