/** The bitmap of used blocks, eight to a byte, the first block in the highest bit. */
module Bitmap {
  import opened Rounding

  // ---------------------------------------------------------------- one byte

  function Mask(bit: nat): bv8
    requires bit < 8
  {
    match bit
    case 0 => 0x80
    case 1 => 0x40
    case 2 => 0x20
    case 3 => 0x10
    case 4 => 0x08
    case 5 => 0x04
    case 6 => 0x02
    case 7 => 0x01
  }

  lemma MaskIsShift(bit: nat)
    requires bit < 8
    ensures (0x80 as bv8) >> bit == Mask(bit)
  {
    match bit {
      case 0 => case 1 => case 2 => case 3 => case 4 => case 5 => case 6 => case 7 =>
    }
  }

  /** A byte of 128 marks the first of its blocks alone, one of 1 the last. */
  lemma FirstBlockHighest()
    ensures Bits(0x80, 8) == [true, false, false, false, false, false, false, false]
    ensures Bits(0x01, 8) == [false, false, false, false, false, false, false, true]
  {
    forall k | 0 <= k < 8
      ensures Bits(0x80, 8)[k] == (k == 0) && Bits(0x01, 8)[k] == (k == 7)
    {
      BitsAt(0x80, 8, k);
      BitsAt(0x01, 8, k);
    }
  }

  predicate Bit(b: bv8, bit: nat)
    requires bit < 8
  {
    b & Mask(bit) != 0
  }

  /** Or-ing a mask in sets exactly one bit, and changes nothing if that bit is set. */
  lemma OrMask(b: bv8, k: nat, j: nat)
    requires k < 8 && j < 8
    ensures Bit(b | Mask(k), j) == (j == k || Bit(b, j))
    ensures b | Mask(k) != b <==> !Bit(b, k)
  {
  }

  /** And-ing its complement clears exactly one bit. */
  lemma AndNotMask(b: bv8, k: nat, j: nat)
    requires k < 8 && j < 8
    ensures Bit(b & !Mask(k), j) == (j != k && Bit(b, j))
  {
  }

  // ---------------------------------------------------------------- the flags of all blocks

  /** The first `n` bits of a byte. */
  function Bits(b: bv8, n: nat): (f: seq<bool>)
    requires n <= 8
    ensures |f| == n
  {
    if n == 0 then [] else Bits(b, n - 1) + [Bit(b, n - 1)]
  }

  lemma {:induction false} BitsAt(b: bv8, n: nat, k: nat)
    requires k < n <= 8
    ensures Bits(b, n)[k] == Bit(b, k)
  {
    if n - 1 <= k {
    } else {
      BitsAt(b, n - 1, k);
    }
  }

  /** One bit of a byte, tested as the searches do: does or-ing the shifted mask in change the byte? */
  method TestBit(b: bv8, bit: nat) returns (used: bool)
    requires bit < 8
    ensures used == Bits(b, 8)[bit]
  {
    var factor: bv8 := 0x80;
    MaskIsShift(bit);
    OrMask(b, bit, bit);
    BitsAt(b, 8, bit);
    used := b | (factor >> bit) == b;
  }

  lemma {:induction false} SameBits(b: bv8, r: bv8, bit: nat, used: bool, n: nat)
    requires bit < 8 && n <= 8
    requires forall j :: 0 <= j < 8 ==> Bit(r, j) == if j == bit then used else Bit(b, j)
    ensures Bits(r, n) == if bit < n then Bits(b, n)[bit := used] else Bits(b, n)
  {
    if n == 0 {
    } else {
      SameBits(b, r, bit, used, n - 1);
    }
  }

  method WithBit(b: bv8, bit: nat) returns (r: bv8)
    requires bit < 8
    ensures Bits(r, 8) == Bits(b, 8)[bit := true]
  {
    var factor: bv8 := 0x80;
    MaskIsShift(bit);
    r := b | (factor >> bit);
    forall j | 0 <= j < 8
      ensures Bit(r, j) == if j == bit then true else Bit(b, j)
    {
      OrMask(b, bit, j);
    }
    SameBits(b, r, bit, true, 8);
  }

  method WithoutBit(b: bv8, bit: nat) returns (r: bv8)
    requires bit < 8
    ensures Bits(r, 8) == Bits(b, 8)[bit := false]
  {
    var factor: bv8 := 0x80;
    MaskIsShift(bit);
    r := b & !(factor >> bit);
    forall j | 0 <= j < 8
      ensures Bit(r, j) == if j == bit then false else Bit(b, j)
    {
      AndNotMask(b, bit, j);
    }
    SameBits(b, r, bit, false, 8);
  }

  /** One flag for each block: is it used? */
  function Flags(m: seq<bv8>): (f: seq<bool>)
    ensures |f| == 8 * |m|
  {
    if m == [] then [] else Flags(m[..|m| - 1]) + Bits(m[|m| - 1], 8)
  }

  lemma {:induction false} FlagAt(m: seq<bv8>, number: nat, bit: nat)
    requires number < |m| && bit < 8
    ensures Flags(m)[8 * number + bit] == Bits(m[number], 8)[bit]
  {
    if |m| - 1 <= number {
    } else {
      FlagAt(m[..|m| - 1], number, bit);
    }
  }

  /**
   The bit the source computes is the right one: `block % ((block / 8) * 8)` is `block % 8` from the second byte
   on.
   */
  lemma BitIndex(block: nat)
    ensures block / 8 != 0 ==> block % (block / 8 * 8) == block % 8
  {
    if block / 8 != 0 {
      QuotientUnique(1, block / 8 * 8, block % 8, block);
    }
  }

  lemma {:induction false} FlagsUpdate(m: seq<bv8>, number: nat, bit: nat, b: bv8, used: bool)
    requires number < |m| && bit < 8 && Bits(b, 8) == Bits(m[number], 8)[bit := used]
    ensures Flags(m[number := b]) == Flags(m)[8 * number + bit := used]
  {
    var last := |m| - 1;
    if number < last {
      FlagsUpdate(m[..last], number, bit, b, used);
      assert m[number := b][..last] == m[..last][number := b];
      UpdateFront(Flags(m[..last]), Bits(m[last], 8), 8 * number + bit, used);
    } else {
      assert m[number := b][..last] == m[..last];
      UpdateBack(Flags(m[..last]), Bits(m[last], 8), bit, used);
    }
  }

  lemma UpdateFront(front: seq<bool>, back: seq<bool>, i: nat, used: bool)
    requires i < |front|
    ensures front[i := used] + back == (front + back)[i := used]
  {
  }

  lemma UpdateBack(front: seq<bool>, back: seq<bool>, i: nat, used: bool)
    requires i < |back|
    ensures front + back[i := used] == (front + back)[|front| + i := used]
  {
  }

  /** The number of free blocks. */
  function Free(f: seq<bool>): nat {
    if f == [] then 0 else Free(f[..|f| - 1]) + if f[|f| - 1] then 0 else 1
  }

  lemma FreeNext(f: seq<bool>, k: nat)
    requires k < |f|
    ensures Free(f[..k + 1]) == Free(f[..k]) + if f[k] then 0 else 1
  {
    assert f[..k + 1][..k] == f[..k];
  }

  /** The first free block, |f| if there is none. */
  function LeastFree(f: seq<bool>): (b: nat)
    ensures b <= |f| && (b < |f| ==> !f[b])
    ensures forall k :: 0 <= k < b ==> f[k]
  {
    if f == [] || !f[0] then 0 else 1 + LeastFree(f[1..])
  }

  lemma {:induction false} FreeUpdate(f: seq<bool>, b: nat)
    requires b < |f| && !f[b]
    ensures Free(f[b := true]) == Free(f) - 1
  {
    var last := |f| - 1;
    if b < last {
      assert f[b := true][..last] == f[..last][b := true];
      FreeUpdate(f[..last], b);
    } else {
      assert f[b := true][..last] == f[..last];
    }
  }

  /** The counter is positive exactly when the search finds a block. */
  lemma {:induction false} FreeSome(f: seq<bool>)
    ensures 0 < Free(f) <==> LeastFree(f) < |f|
  {
    if f == [] {
    } else {
      var front := f[..|f| - 1];
      FreeSome(front);
      if LeastFree(front) < |front| {
        assert !f[LeastFree(front)];
      }
    }
  }

  /** The blocks that `n` searches find, each marking what it found. */
  function Picks(f: seq<bool>, n: nat): (r: seq<nat>)
    requires n <= Free(f)
    ensures |r| == n
    decreases n
  {
    if n == 0 then []
    else
      FreeSome(f);
      var b := LeastFree(f);
      FreeUpdate(f, b);
      [b] + Picks(f[b := true], n - 1)
  }

  /** They are `n` different blocks, all of them free before. */
  lemma {:induction false} PicksWereFree(f: seq<bool>, n: nat)
    requires n <= Free(f)
    ensures forall i :: 0 <= i < n ==> Picks(f, n)[i] < |f| && !f[Picks(f, n)[i]]
    ensures forall i, j :: 0 <= i < j < n ==> Picks(f, n)[i] != Picks(f, n)[j]
    decreases n
  {
    if n == 0 {
    } else {
      PickNext(f, n);
      var b := LeastFree(f);
      PicksWereFree(f[b := true], n - 1);
      var rest := Picks(f[b := true], n - 1);
      assert forall i :: 1 <= i < n ==> Picks(f, n)[i] == rest[i - 1] && rest[i - 1] != b;
    }
  }

  lemma PickNext(f: seq<bool>, n: nat)
    requires 0 < n <= Free(f)
    ensures var b := LeastFree(f);
            b < |f| && n - 1 <= Free(f[b := true]) && Picks(f, n) == [b] + Picks(f[b := true], n - 1)
  {
    FreeSome(f);
    FreeUpdate(f, LeastFree(f));
  }

  /** The flags after every block of a list has been marked, in order. */
  function SetAll(f: seq<bool>, bs: seq<nat>, used: bool): (r: seq<bool>)
    ensures |r| == |f|
    decreases bs
  {
    if bs == [] then f
    else SetAll(if bs[0] < |f| then f[bs[0] := used] else f, bs[1..], used)
  }

  lemma {:induction false} SetAllAt(f: seq<bool>, bs: seq<nat>, used: bool, k: nat)
    requires k < |f|
    ensures SetAll(f, bs, used)[k] == if k in bs then used else f[k]
    decreases bs
  {
    if bs == [] {
    } else {
      assert k in bs <==> k == bs[0] || k in bs[1..];
      SetAllAt(if bs[0] < |f| then f[bs[0] := used] else f, bs[1..], used, k);
    }
  }

  // ---------------------------------------------------------------- the bytes

  class Bitmap {
    const bytes: array<bv8>
    /** `cantidadBloques`, read from the metadata file. */
    const blockCount: int

    ghost function Used(): (f: seq<bool>)
      reads bytes
      ensures |f| == 8 * bytes.Length
    {
      Flags(bytes[..])
    }

    constructor (bytes: array<bv8>, blockCount: int)
      ensures this.bytes == bytes && this.blockCount == blockCount
    {
      this.bytes := bytes;
      this.blockCount := blockCount;
    }

    /** The bit of a block within its byte, as `marcarBloqueBitMapLibre` and `marcarBloqueBitMapUsado` compute it. */
    method BitWithin(block: nat) returns (bit: nat)
      ensures bit == block % 8
    {
      var number := block / 8;
      BitIndex(block);
      if number == 0 {
        bit := block % 8;
      } else {
        bit := block % (number * 8);
      }
    }

    method MarkUsed(block: nat)
      requires block < 8 * bytes.Length
      modifies bytes
      ensures Used() == old(Used())[block := true]
    {
      var bit := BitWithin(block);
      var b := WithBit(bytes[block / 8], bit);
      StoreByte(block / 8, b, bit, true);
    }

    method MarkFree(block: nat)
      requires block < 8 * bytes.Length
      modifies bytes
      ensures Used() == old(Used())[block := false]
    {
      var bit := BitWithin(block);
      var b := WithoutBit(bytes[block / 8], bit);
      StoreByte(block / 8, b, bit, false);
    }

    method StoreByte(number: nat, b: bv8, ghost bit: nat, ghost used: bool)
      requires number < bytes.Length && bit < 8 && Bits(b, 8) == Bits(bytes[number], 8)[bit := used]
      modifies bytes
      ensures Used() == old(Used())[8 * number + bit := used]
    {
      FlagsUpdate(bytes[..], number, bit, b, used);
      bytes[number] := b;
      assert bytes[..] == old(bytes[..])[number := b];
    }

    /**
     `buscarPrimerBloqueLibre`. A full bitmap is reported only if the metadata counts exactly the blocks of
     the bitmap; otherwise the answer is a block that does not exist.
     */
    method FindFirstFree() returns (block: int)
      requires 0 < bytes.Length
      ensures LeastFree(Used()) < |Used()| ==> block == LeastFree(Used())
      ensures LeastFree(Used()) == |Used()| ==> block == if blockCount == |Used()| then -1 else |Used()| + 8
    {
      var number, bit := 0, 0;
      var found := false;
      while number < bytes.Length
        invariant 0 <= number <= bytes.Length && !found
        invariant bit == if number == 0 then 0 else 8
        invariant forall k :: 0 <= k < 8 * number ==> Used()[k]
      {
        found, bit := FirstClear(number);
        if found {
          break;
        }
        number := number + 1;
      }
      if (number - 1) * 8 + bit == blockCount {
        // past the last byte the mask has been shifted out, so or-ing it in changes nothing
        var same := true;
        if number < bytes.Length {
          same := TestBit(bytes[number], bit);
          FlagAt(bytes[..], number, bit);
        }
        if same {
          return -1;
        }
      }
      block := number * 8 + bit;
    }

    /** The scan over the bits of one byte. */
    method FirstClear(number: nat) returns (found: bool, bit: nat)
      requires number < bytes.Length
      ensures found <==> bit < 8
      ensures bit <= 8 && forall k :: 8 * number <= k < 8 * number + bit ==> Used()[k]
      ensures found ==> !Used()[8 * number + bit]
    {
      bit := 0;
      while bit < 8
        invariant 0 <= bit <= 8
        invariant forall k :: 8 * number <= k < 8 * number + bit ==> Used()[k]
      {
        FlagAt(bytes[..], number, bit);
        var used := TestBit(bytes[number], bit);
        if !used {
          return true, bit;
        }
        bit := bit + 1;
      }
      found := false;
    }

    /** `actualizarBloquesLibres`. */
    method CountFree() returns (count: nat)
      ensures count == Free(Used())
    {
      count := 0;
      var number := 0;
      while number < bytes.Length
        invariant 0 <= number <= bytes.Length && count == Free(Used()[..8 * number])
      {
        var clear := CountClear(number);
        count := count + clear;
        number := number + 1;
      }
      assert Used()[..8 * number] == Used();
    }

    method CountClear(number: nat) returns (count: nat)
      requires number < bytes.Length
      ensures count == Free(Used()[..8 * number + 8]) - Free(Used()[..8 * number])
    {
      count := 0;
      var bit := 0;
      while bit < 8
        invariant 0 <= bit <= 8 && count == Free(Used()[..8 * number + bit]) - Free(Used()[..8 * number])
      {
        FlagAt(bytes[..], number, bit);
        FreeNext(Used(), 8 * number + bit);
        var used := TestBit(bytes[number], bit);
        if !used {
          count := count + 1;
        }
        bit := bit + 1;
      }
    }

    /** The loop of `asignar_nuevos_bloques`: no search fails if at least `n` blocks are free. */
    method Assign(n: nat, list: seq<nat>) returns (grown: seq<nat>)
      requires 0 < bytes.Length && n <= Free(Used())
      modifies bytes
      ensures grown == list + Picks(old(Used()), n)
      ensures Used() == SetAll(old(Used()), Picks(old(Used()), n), true)
    {
      grown := list;
      var i := 0;
      while i < n
        invariant 0 <= i <= n && n - i <= Free(Used())
        invariant grown + Picks(Used(), n - i) == list + Picks(old(Used()), n)
        invariant SetAll(Used(), Picks(Used(), n - i), true) == SetAll(old(Used()), Picks(old(Used()), n), true)
      {
        PickNext(Used(), n - i);
        ghost var rest := Picks(Used()[LeastFree(Used()) := true], n - i - 1);
        var block := FindFirstFree();
        assert ([block] + rest)[1..] == rest;
        assert grown + ([block] + rest) == grown + [block] + rest;
        MarkUsed(block);
        grown := grown + [block];
        i := i + 1;
      }
    }

    /** The loop of `marcarBloquesDeArchivoMetadataDelArchivoComoLibres`. */
    method FreeAll(list: seq<nat>)
      requires forall i :: 0 <= i < |list| ==> list[i] < 8 * bytes.Length
      modifies bytes
      ensures Used() == SetAll(old(Used()), list, false)
    {
      var i := 0;
      while i < |list|
        invariant 0 <= i <= |list|
        invariant SetAll(Used(), list[i..], false) == SetAll(old(Used()), list, false)
      {
        assert list[i..][1..] == list[i + 1..];
        MarkFree(list[i]);
        i := i + 1;
      }
    }
  }
}
