/**
  Bytes and the little-endian unsigned integers the metrics tables are made of.
  The tables are produced and consumed on x86-64, so the byte order is fixed to
  little-endian rather than parameterised.
 */
module Bytes {

  /** One octet of the raw buffer. */
  type Byte = b: int | 0 <= b < 256

  /** 256 to the power `n`: one more than the largest `n`-byte unsigned value. */
  function Pow256(n: nat): (r: nat)
    ensures r >= 1
  {
    if n == 0 then 1 else 256 * Pow256(n - 1)
  }

  /** The unsigned integer stored little-endian in `buf[off .. off + width]`. */
  function ReadLE(buf: seq<Byte>, off: nat, width: nat): (r: nat)
    requires off + width <= |buf|
    ensures r < Pow256(width)
    decreases width
  {
    if width == 0 then 0 else buf[off] + 256 * ReadLE(buf, off + 1, width - 1)
  }

  /** The `width` little-endian bytes of `v`, least significant first. */
  function EncodeLE(v: nat, width: nat): (r: seq<Byte>)
    ensures |r| == width
    decreases width
  {
    if width == 0 then [] else [v % 256] + EncodeLE(v / 256, width - 1)
  }

  /** `buf` with `bytes` written over it starting at `off`; the length never changes. */
  function Overwrite(buf: seq<Byte>, off: nat, bytes: seq<Byte>): (r: seq<Byte>)
    requires off + |bytes| <= |buf|
    ensures |r| == |buf|
    ensures r[off .. off + |bytes|] == bytes
    ensures forall k :: 0 <= k < |buf| && !(off <= k < off + |bytes|) ==> r[k] == buf[k]
  {
    buf[..off] + bytes + buf[off + |bytes|..]
  }

  /** The two-byte case spelled out: low byte first. */
  lemma ReadU16(buf: seq<Byte>, off: nat)
    requires off + 2 <= |buf|
    ensures ReadLE(buf, off, 2) == buf[off] as int + 256 * buf[off + 1] as int
  {
  }

  /** A read depends only on the bytes it covers. */
  lemma {:induction false} ReadLocal(a: seq<Byte>, b: seq<Byte>, off: nat, width: nat)
    requires off + width <= |a| && off + width <= |b|
    requires a[off .. off + width] == b[off .. off + width]
    ensures ReadLE(a, off, width) == ReadLE(b, off, width)
    decreases width
  {
    if width > 0 {
      assert a[off] == a[off .. off + width][0] == b[off .. off + width][0] == b[off];
      assert a[off + 1 .. off + width] == a[off .. off + width][1..];
      assert b[off + 1 .. off + width] == b[off .. off + width][1..];
      ReadLocal(a, b, off + 1, width - 1);
    }
  }

  /** Decoding what was encoded gives the value back, for every value that fits. */
  lemma {:induction false} ReadEncode(v: nat, width: nat)
    requires v < Pow256(width)
    ensures ReadLE(EncodeLE(v, width), 0, width) == v
    decreases width
  {
    if width > 0 {
      var e := EncodeLE(v, width);
      var tail := EncodeLE(v / 256, width - 1);
      assert e == [v % 256] + tail;
      ReadEncode(v / 256, width - 1);
      ReadShift(e, 1, width - 1);
      assert e[1..] == tail;
    }
  }

  /** Reading at `off + 1` in `buf` is reading at `off` in `buf[1..]`. */
  lemma {:induction false} ReadShift(buf: seq<Byte>, off: nat, width: nat)
    requires 1 <= off && off + width <= |buf|
    ensures ReadLE(buf, off, width) == ReadLE(buf[1..], off - 1, width)
    decreases width
  {
    if width > 0 {
      ReadShift(buf, off + 1, width - 1);
    }
  }

  /** Encoding what was read gives the bytes back. */
  lemma {:induction false} EncodeRead(buf: seq<Byte>, off: nat, width: nat)
    requires off + width <= |buf|
    ensures EncodeLE(ReadLE(buf, off, width), width) == buf[off .. off + width]
    decreases width
  {
    if width > 0 {
      var v := ReadLE(buf, off, width);
      var rest := ReadLE(buf, off + 1, width - 1);
      assert v == buf[off] + 256 * rest;
      assert v % 256 == buf[off];
      assert v / 256 == rest;
      EncodeRead(buf, off + 1, width - 1);
      assert buf[off .. off + width] == [buf[off]] + buf[off + 1 .. off + width];
    }
  }

  /** Overwriting a range and reading it back yields the value that was encoded into it. */
  lemma ReadOverwriteSame(buf: seq<Byte>, off: nat, v: nat, width: nat)
    requires off + width <= |buf|
    requires v < Pow256(width)
    ensures ReadLE(Overwrite(buf, off, EncodeLE(v, width)), off, width) == v
  {
    var e := EncodeLE(v, width);
    var w := Overwrite(buf, off, e);
    ReadEncode(v, width);
    ReadAt(w, off, width);
    ReadAt(e, 0, width);
    assert e[0 .. width] == e;
  }

  /** Reading at `off` equals reading the slice that starts there. */
  lemma {:induction false} ReadAt(buf: seq<Byte>, off: nat, width: nat)
    requires off + width <= |buf|
    ensures ReadLE(buf, off, width) == ReadLE(buf[off .. off + width], 0, width)
    decreases width
  {
    if width > 0 {
      var s := buf[off .. off + width];
      ReadAt(buf, off + 1, width - 1);
      ReadShift(s, 1, width - 1);
      assert s[1..] == buf[off + 1 .. off + width];
      assert s[1..][0 .. width - 1] == s[1..];
    }
  }

  /** Overwriting one range leaves a read of a disjoint range unchanged. */
  lemma ReadOverwriteOther(buf: seq<Byte>, off: nat, bytes: seq<Byte>, off2: nat, width: nat)
    requires off + |bytes| <= |buf|
    requires off2 + width <= |buf|
    requires off2 + width <= off || off + |bytes| <= off2
    ensures ReadLE(Overwrite(buf, off, bytes), off2, width) == ReadLE(buf, off2, width)
  {
    var w := Overwrite(buf, off, bytes);
    assert w[off2 .. off2 + width] == buf[off2 .. off2 + width];
    ReadLocal(w, buf, off2, width);
  }
}
