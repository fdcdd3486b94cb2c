/** Raw bytes, 32-bit little-endian integers and in-place stores, shared by every component. */
module Bytes {

  type byte = x: int | 0 <= x < 256

  type int32 = x: int | -0x8000_0000 <= x < 0x8000_0000

  /** The four bytes of a C `int32_t`, least significant first, negative numbers in two's complement. */
  function EncodeInt32(x: int32): (b: seq<byte>)
    ensures |b| == 4
  {
    var u := if x < 0 then x + 0x1_0000_0000 else x;
    [u % 256, u / 0x100 % 256, u / 0x1_0000 % 256, u / 0x100_0000]
  }

  function DecodeInt32(b: seq<byte>): int32
    requires |b| == 4
  {
    var b0: int, b1: int, b2: int, b3: int := b[0], b[1], b[2], b[3];
    var u := b0 + 0x100 * b1 + 0x1_0000 * b2 + 0x100_0000 * b3;
    if u < 0x8000_0000 then u else u - 0x1_0000_0000
  }

  lemma DecodeEncodeInt32(x: int32)
    ensures DecodeInt32(EncodeInt32(x)) == x
  {
    var u := if x < 0 then x + 0x1_0000_0000 else x;
    assert u == u % 256 + 0x100 * (u / 0x100);
    assert u / 0x100 == u / 0x100 % 256 + 0x100 * (u / 0x1_0000);
    assert u / 0x1_0000 == u / 0x1_0000 % 256 + 0x100 * (u / 0x100_0000);
  }

  /** The bytes are the digits to the base 256, the lowest first; a negative number is 2^32 less than they say. */
  lemma LittleEndian(x: int32)
    ensures var b := EncodeInt32(x); var b0: int, b1: int, b2: int, b3: int := b[0], b[1], b[2], b[3];
            x == b0 + 0x100 * b1 + 0x1_0000 * b2 + 0x100_0000 * b3 - if b3 < 0x80 then 0 else 0x1_0000_0000
  {
    var u := if x < 0 then x + 0x1_0000_0000 else x;
    assert u == u % 256 + 0x100 * (u / 0x100);
    assert u / 0x100 == u / 0x100 % 256 + 0x100 * (u / 0x1_0000);
    assert u / 0x1_0000 == u / 0x1_0000 % 256 + 0x100 * (u / 0x100_0000);
  }

  /** What `memcpy(m + at, data, |data|)` leaves in `m`. */
  function Splice<T>(m: seq<T>, at: nat, data: seq<T>): (r: seq<T>)
    requires at + |data| <= |m|
    ensures |r| == |m|
    ensures forall k {:trigger r[k]} :: 0 <= k < |m| ==> r[k] == if at <= k < at + |data| then data[k - at] else m[k]
  {
    m[..at] + data + m[at + |data|..]
  }

  /** A store leaves every slice that it does not touch as it was. */
  lemma SpliceElsewhere<T>(m: seq<T>, at: nat, data: seq<T>, lo: nat, hi: nat)
    requires at + |data| <= |m| && lo <= hi <= |m|
    requires hi <= at || at + |data| <= lo
    ensures Splice(m, at, data)[lo..hi] == m[lo..hi]
  {
    var r := Splice(m, at, data);
    forall k | 0 <= k < hi - lo
      ensures r[lo..hi][k] == m[lo..hi][k]
    {
      assert r[lo + k] == m[lo + k];
    }
  }

  /** A store inside a slice is the same store on the slice alone. */
  lemma SpliceWithin<T>(m: seq<T>, at: nat, data: seq<T>, lo: nat, hi: nat)
    requires lo <= at && at + |data| <= hi <= |m|
    ensures Splice(m, at, data)[lo..hi] == Splice(m[lo..hi], at - lo, data)
  {
    var r := Splice(m, at, data);
    var s := Splice(m[lo..hi], at - lo, data);
    forall k | 0 <= k < hi - lo
      ensures r[lo..hi][k] == s[k]
    {
      if at <= lo + k < at + |data| {
        assert r[at..at + |data|][lo + k - at] == data[lo + k - at];
        assert s[at - lo..at - lo + |data|][lo + k - at] == data[lo + k - at];
      }
    }
  }
}
