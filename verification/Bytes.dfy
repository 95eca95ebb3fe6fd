module Options {

  datatype Option<+T> = None | Some(value: T)
}

/** Byte strings and the failure type shared by the models of the hand-written formats. */
module Bytes {

  type Byte = n: nat | n < 256
  type Bytes = seq<Byte>

  /** A thrown `CompilerFailure` is `Failed`; the failure code itself is not modelled. */
  datatype Result<+T> = Ok(value: T) | Failed {
    predicate IsFailure() { Failed? }
    function PropagateFailure<U>(): Result<U>
      requires Failed?
    {
      Failed
    }
    function Extract(): T
      requires Ok?
    {
      value
    }
  }

  function Zeros(n: nat): (z: Bytes)
    ensures |z| == n
    ensures forall i :: 0 <= i < n ==> z[i] == 0
  {
    seq(n, _ => 0)
  }

  /** The contents of `h` after `target.set(text, offset)`. */
  function Put(h: Bytes, offset: nat, text: Bytes): (r: Bytes)
    requires offset + |text| <= |h|
    ensures |r| == |h|
    ensures forall i :: 0 <= i < |h| ==>
      r[i] == if offset <= i < offset + |text| then text[i - offset] else h[i]
  {
    h[..offset] + text + h[offset + |text|..]
  }

  function Sum(b: Bytes): nat
  {
    if b == [] then 0 else b[0] + Sum(b[1..])
  }

  lemma {:induction false} SumConcat(a: Bytes, b: Bytes)
    ensures Sum(a + b) == Sum(a) + Sum(b)
  {
    if a == [] {
      assert a + b == b;
    } else {
      assert (a + b)[1..] == a[1..] + b;
      SumConcat(a[1..], b);
    }
  }

  lemma SumOne(x: Byte)
    ensures Sum([x]) == x && Sum([]) == 0
  {
    assert [x][1..] == [];
  }

  lemma {:induction false} SumBound(b: Bytes)
    ensures Sum(b) <= 255 * |b|
  {
    if b != [] {
      SumBound(b[1..]);
    }
  }

  /** A slice that lies wholly inside the middle part of a concatenation. */
  lemma MiddleSlice(a: Bytes, b: Bytes, c: Bytes, lo: nat, hi: nat)
    requires lo <= hi <= |b|
    ensures (a + b + c)[|a| + lo..|a| + hi] == b[lo..hi]
  {
  }

  /** Little-endian unsigned integers, as written by the byte shifts and the `writeUInt` calls. */
  function LittleEndian(value: nat, width: nat): (r: Bytes)
    ensures |r| == width
  {
    if width == 0 then [] else [value % 256] + LittleEndian(value / 256, width - 1)
  }

  function FromLittleEndian(b: Bytes): nat
  {
    if b == [] then 0 else b[0] + 256 * FromLittleEndian(b[1..])
  }

  function Pow(base: nat, exponent: nat): nat
  {
    if exponent == 0 then 1 else base * Pow(base, exponent - 1)
  }

  lemma {:induction false} LittleEndianRoundTrip(value: nat, width: nat)
    requires value < Pow(256, width)
    ensures FromLittleEndian(LittleEndian(value, width)) == value
  {
    if width > 0 {
      assert value / 256 < Pow(256, width - 1);
      LittleEndianRoundTrip(value / 256, width - 1);
    }
  }
}
