/**
 The blocks of one heap page: each payload follows a 5-byte header, and the blocks fill the page.
 A block with a negative number is the "special" one, the unused tail from which new blocks are cut.
 */
module HeapBlocks {

  const HEADER := 5

  datatype Block = Block(number: int, size: int, used: bool, offset: int) {
    function End(): int { offset + size }
    predicate Special() { number < 0 }
  }

  // ---------------------------------------------------------------- what every page keeps

  /** Each payload begins one header after the end of the one before. */
  ghost predicate Chained(bs: seq<Block>) {
    forall i {:trigger bs[i].End()} :: 0 <= i < |bs| - 1 ==> bs[i + 1].offset == bs[i].End() + HEADER
  }

  /** The blocks follow one another from the first payload at 5 to the end of the page. */
  ghost predicate Tiled(bs: seq<Block>, pageSize: int) {
    && bs != [] && bs[0].offset == HEADER && bs[|bs| - 1].End() == pageSize
    && Chained(bs)
  }

  ghost predicate Sized(bs: seq<Block>) {
    forall i :: 0 <= i < |bs| ==> 0 <= bs[i].size
  }

  /** Only the last block may be special, a special block is free, and a last block that is empty is special. */
  ghost predicate SpecialLast(bs: seq<Block>) {
    && (forall i :: 0 <= i < |bs| && bs[i].Special() ==> i == |bs| - 1 && !bs[i].used)
    && (bs != [] && bs[|bs| - 1].size == 0 ==> bs[|bs| - 1].Special())
  }

  ghost predicate NoAdjacentFree(bs: seq<Block>) {
    forall i :: 0 <= i < |bs| - 1 ==> bs[i].used || bs[i + 1].used
  }

  ghost predicate WellFormed(bs: seq<Block>, pageSize: int) {
    Tiled(bs, pageSize) && Sized(bs) && SpecialLast(bs)
  }

  function Total(bs: seq<Block>): int {
    if bs == [] then 0 else Total(bs[..|bs| - 1]) + bs[|bs| - 1].size + HEADER
  }

  /** No byte of the page is lost: headers and payloads add up to its size. */
  lemma {:induction false} TiledTotal(bs: seq<Block>, pageSize: int)
    requires Tiled(bs, pageSize)
    ensures Total(bs) == pageSize
  {
    var last := |bs| - 1;
    if last == 0 {
      assert bs[..0] == [];
    } else {
      assert bs[last].offset == bs[last - 1].End() + HEADER;
      TiledTotal(bs[..last], bs[last - 1].End());
    }
  }

  /** Payloads do not overlap, nor does any payload overlap a header. */
  lemma {:induction false} Apart(bs: seq<Block>, pageSize: int, i: nat, j: nat)
    requires Tiled(bs, pageSize) && Sized(bs) && i < j < |bs|
    ensures bs[i].End() <= bs[j].offset - HEADER
    decreases j
  {
    assert bs[j].offset == bs[j - 1].End() + HEADER;
    if j - 1 <= i {
    } else {
      Apart(bs, pageSize, i, j - 1);
    }
  }

  /** Every payload with its header lies inside the page. */
  lemma Inside(bs: seq<Block>, pageSize: int, i: nat)
    requires Tiled(bs, pageSize) && Sized(bs) && i < |bs|
    ensures 0 <= bs[i].offset - HEADER && bs[i].End() <= pageSize
  {
    if 0 < i { Apart(bs, pageSize, 0, i); }
    if i < |bs| - 1 { Apart(bs, pageSize, i, |bs| - 1); }
  }

  // ---------------------------------------------------------------- allocation

  /** A normal block must hold the bytes asked for; the special one must also leave room for a header. */
  predicate Fits(b: Block, bytes: int) {
    !b.used && if b.Special() then bytes + HEADER <= b.size else bytes <= b.size
  }

  function FirstFit(bs: seq<Block>, bytes: int): (j: nat)
    ensures j <= |bs| && (j < |bs| ==> Fits(bs[j], bytes))
    ensures forall i :: 0 <= i < j ==> !Fits(bs[i], bytes)
  {
    if bs == [] || Fits(bs[0], bytes) then 0 else 1 + FirstFit(bs[1..], bytes)
  }

  /** `buscar_ultimo_bloque_bis`: the largest number in use, at least 0. */
  function MaxNumber(bs: seq<Block>): (n: int)
    ensures 0 <= n
  {
    if bs == [] then 0
    else
      var n := MaxNumber(bs[..|bs| - 1]);
      if bs[|bs| - 1].number > n then bs[|bs| - 1].number else n
  }

  /**
   The blocks after block `j` has been given to a request: a special block is cut in two and moves to the
   end of the list, a normal one is cut if more than a header would be left over, else taken whole.
   */
  function Granted(bs: seq<Block>, j: nat, bytes: int): seq<Block>
    requires j < |bs|
  {
    var b := bs[j];
    if b.Special() then
      bs[..j] + bs[j + 1..]
      + [Block(MaxNumber(bs), bytes, true, b.offset),
         b.(offset := b.offset + bytes + HEADER, size := b.size - bytes - HEADER)]
    else if b.size > bytes + HEADER then
      bs[..j]
      + [b.(used := true, size := bytes), Block(0, b.size - bytes - HEADER, false, b.offset + bytes + HEADER)]
      + bs[j + 1..]
    else
      bs[j := b.(used := true)]
  }

  /** The part of a grant that the block search does itself: it cuts a special block but only marks a normal one. */
  function Taken(bs: seq<Block>, j: nat, bytes: int): seq<Block>
    requires j < |bs|
  {
    if bs[j].Special() then Granted(bs, j, bytes) else bs[j := bs[j].(used := true)]
  }

  /** The part its caller adds: cutting the marked block if more than a header would be left over. */
  function Trimmed(bs: seq<Block>, j: nat, bytes: int): seq<Block>
    requires j < |bs|
  {
    var b := bs[j];
    if b.size > bytes + HEADER then
      bs[..j] + [b.(size := bytes), Block(0, b.size - bytes - HEADER, false, b.offset + bytes + HEADER)] + bs[j + 1..]
    else bs
  }

  lemma TakenThenTrimmed(bs: seq<Block>, j: nat, bytes: int)
    requires SpecialLast(bs) && j < |bs| && Fits(bs[j], bytes)
    ensures j < |Taken(bs, j, bytes)| && Trimmed(Taken(bs, j, bytes), j, bytes) == Granted(bs, j, bytes)
    ensures forall i :: 0 <= i <= j ==> Taken(bs, j, bytes)[i].offset == bs[i].offset
  {
  }

  /** The first block whose payload begins at `offset`. */
  function BlockAt(bs: seq<Block>, offset: int): (i: nat)
    ensures i <= |bs| && (i < |bs| ==> bs[i].offset == offset)
    ensures forall k :: 0 <= k < i ==> bs[k].offset != offset
  {
    if bs == [] || bs[0].offset == offset then 0 else 1 + BlockAt(bs[1..], offset)
  }

  /** In a well-formed page an offset names one block. */
  lemma BlockAtIs(bs: seq<Block>, pageSize: int, j: nat)
    requires Tiled(bs, pageSize) && Sized(bs) && j < |bs|
    ensures BlockAt(bs, bs[j].offset) == j
  {
    var i := BlockAt(bs, bs[j].offset);
    if i < j { Apart(bs, pageSize, i, j); }
  }

  lemma GrantedTiled(bs: seq<Block>, pageSize: int, j: nat, bytes: int)
    requires Tiled(bs, pageSize) && SpecialLast(bs) && j < |bs| && Fits(bs[j], bytes)
    ensures Tiled(Granted(bs, j, bytes), pageSize) && SpecialLast(Granted(bs, j, bytes))
  {
    var r := Granted(bs, j, bytes);
    forall i | 0 <= i < |r| - 1
      ensures r[i + 1].offset == r[i].End() + HEADER
    {
      if i < j && i + 1 < |bs| { assert bs[i + 1].offset == bs[i].End() + HEADER; }
      if j + 1 < i && !bs[j].Special() && |r| == |bs| + 1 { assert bs[i].offset == bs[i - 1].End() + HEADER; }
      if j + 1 < |bs| { assert bs[j + 1].offset == bs[j].End() + HEADER; }
    }
  }

  /** Sizes stay non-negative exactly when the request is not negative, or the block is taken whole. */
  lemma GrantedSized(bs: seq<Block>, j: nat, bytes: int)
    requires Sized(bs) && j < |bs| && Fits(bs[j], bytes)
    ensures Sized(Granted(bs, j, bytes)) <==>
              0 <= bytes || (!bs[j].Special() && bs[j].size <= bytes + HEADER)
  {
    var r := Granted(bs, j, bytes);
    if bs[j].Special() {
      assert r[|bs| - 1].size == bytes;
    } else if bs[j].size > bytes + HEADER {
      assert r[j].size == bytes;
    }
  }

  lemma GrantedNoAdjacentFree(bs: seq<Block>, pageSize: int, j: nat, bytes: int)
    requires NoAdjacentFree(bs) && SpecialLast(bs) && j < |bs| && Fits(bs[j], bytes)
    ensures NoAdjacentFree(Granted(bs, j, bytes))
  {
    var r := Granted(bs, j, bytes);
    forall i | 0 <= i < |r| - 1
      ensures r[i].used || r[i + 1].used
    {
      if i < j && i + 1 < |bs| { assert bs[i].used || bs[i + 1].used; }
      if j + 1 < |bs| { assert bs[j].used || bs[j + 1].used; }
      if j + 1 < i && |r| == |bs| + 1 && !bs[j].Special() { assert bs[i - 1].used || bs[i].used; }
    }
  }

  /** The allocations alive in a page: where each payload begins and how long it is. */
  function Live(bs: seq<Block>): set<(int, int)> {
    if bs == [] then {}
    else (if bs[0].used then {(bs[0].offset, bs[0].size)} else {}) + Live(bs[1..])
  }

  lemma LiveIs(bs: seq<Block>, a: (int, int))
    ensures a in Live(bs) <==> exists i :: 0 <= i < |bs| && bs[i].used && a == (bs[i].offset, bs[i].size)
  {
    if bs != [] {
      LiveIs(bs[1..], a);
      if exists i :: 0 <= i < |bs| && bs[i].used && a == (bs[i].offset, bs[i].size) {
        var i :| 0 <= i < |bs| && bs[i].used && a == (bs[i].offset, bs[i].size);
        if 0 < i { assert bs[1..][i - 1] == bs[i]; }
      }
    }
  }

  lemma {:induction false} LiveConcat(a: seq<Block>, b: seq<Block>)
    ensures Live(a + b) == Live(a) + Live(b)
  {
    if a == [] {
      assert a + b == b;
    } else {
      assert (a + b)[1..] == a[1..] + b;
      LiveConcat(a[1..], b);
    }
  }

  /** Replacing one block of the list by others. */
  lemma LiveAround(a: seq<Block>, mid: seq<Block>, b: seq<Block>)
    ensures Live(a + mid + b) == Live(a) + Live(mid) + Live(b)
  {
    LiveConcat(a + mid, b);
    LiveConcat(a, mid);
  }

  /** How many bytes a request for `bytes` out of block `b` really gets. */
  function GrantedSize(b: Block, bytes: int): (size: int)
    requires Fits(b, bytes)
    ensures bytes <= size <= bytes + HEADER
  {
    if b.Special() || b.size > bytes + HEADER then bytes else b.size
  }

  /** The list around the block that was granted: what replaces the block. */
  lemma GrantedParts(bs: seq<Block>, j: nat, bytes: int) returns (mid: seq<Block>)
    requires SpecialLast(bs) && j < |bs| && Fits(bs[j], bytes)
    ensures Granted(bs, j, bytes) == bs[..j] + mid + bs[j + 1..]
    ensures Live(mid) == {(bs[j].offset, GrantedSize(bs[j], bytes))}
  {
    var r := Granted(bs, j, bytes);
    if |r| == |bs| {
      mid := [r[j]];
      LiveOne(r[j]);
    } else {
      mid := [r[j]] + [r[j + 1]];
      LiveConcat([r[j]], [r[j + 1]]);
      LiveOne(r[j]);
      LiveOne(r[j + 1]);
    }
  }

  lemma LiveOne(b: Block)
    ensures Live([b]) == if b.used then {(b.offset, b.size)} else {}
  {
    assert [b][1..] == [];
  }

  /** Granting a request adds its allocation, of the size asked for or at most 5 bytes more, and disturbs no other. */
  lemma GrantedLive(bs: seq<Block>, j: nat, bytes: int)
    requires SpecialLast(bs) && j < |bs| && Fits(bs[j], bytes)
    ensures Live(Granted(bs, j, bytes)) == Live(bs) + {(bs[j].offset, GrantedSize(bs[j], bytes))}
  {
    var mid := GrantedParts(bs, j, bytes);
    LiveAround(bs[..j], mid, bs[j + 1..]);
    assert bs == bs[..j] + [bs[j]] + bs[j + 1..];
    LiveAround(bs[..j], [bs[j]], bs[j + 1..]);
  }

  /** Freeing a block removes its allocation and no other. */
  lemma FreedLive(bs: seq<Block>, pageSize: int, j: nat)
    requires Tiled(bs, pageSize) && Sized(bs) && j < |bs|
    ensures Live(Freed(bs, j)) == Live(bs) - {(bs[j].offset, bs[j].size)}
  {
    var before, after := bs[..j], bs[j + 1..];
    assert bs == before + [bs[j]] + after;
    assert Freed(bs, j) == before + [bs[j].(used := false)] + after;
    LiveAround(before, [bs[j]], after);
    LiveAround(before, [bs[j].(used := false)], after);
    LiveOne(bs[j]);
    LiveOne(bs[j].(used := false));
    NotElsewhere(bs, pageSize, j);
  }

  lemma NotElsewhere(bs: seq<Block>, pageSize: int, j: nat)
    requires Tiled(bs, pageSize) && Sized(bs) && j < |bs|
    ensures (bs[j].offset, bs[j].size) !in Live(bs[..j]) + Live(bs[j + 1..])
  {
    LiveIs(bs[..j], (bs[j].offset, bs[j].size));
    LiveIs(bs[j + 1..], (bs[j].offset, bs[j].size));
    forall i | 0 <= i < |bs| && i != j
      ensures bs[i].offset != bs[j].offset
    {
      if i < j { Apart(bs, pageSize, i, j); } else { Apart(bs, pageSize, j, i); }
    }
  }

  /** Freeing block `j`. */
  function Freed(bs: seq<Block>, j: nat): seq<Block>
    requires j < |bs|
  {
    bs[j := bs[j].(used := false)]
  }

  lemma FreedWell(bs: seq<Block>, j: nat, pageSize: int)
    requires WellFormed(bs, pageSize) && j < |bs|
    ensures WellFormed(Freed(bs, j), pageSize)
  {
    var r := Freed(bs, j);
    forall i | 0 <= i < |r| - 1
      ensures r[i + 1].offset == r[i].End() + HEADER
    {
      assert bs[i + 1].offset == bs[i].End() + HEADER;
    }
  }

  // ---------------------------------------------------------------- compaction

  /** The first block takes over the second, header included. */
  function Merge(a: Block, b: Block): Block {
    a.(size := a.size + b.size + HEADER)
  }

  /** A block before others, merged with the first of them if both are free. */
  function Joined(b: Block, rest: seq<Block>): (r: seq<Block>)
    requires rest != []
    ensures r != [] && r[0].used == b.used && r[0].offset == b.offset && |r| <= 1 + |rest|
  {
    if !b.used && !rest[0].used then [Merge(b, rest[0])] + rest[1..] else [b] + rest
  }

  /** Every maximal run of free blocks made into one: what compaction is for. */
  function Coalesce(bs: seq<Block>): (r: seq<Block>)
    ensures bs != [] ==> r != [] && r[0].used == bs[0].used && r[0].offset == bs[0].offset && |r| <= |bs|
  {
    if |bs| <= 1 then bs else Joined(bs[0], Coalesce(bs[1..]))
  }

  /** The list with block `i` merged into one with the next. */
  function MergedAt(bs: seq<Block>, i: nat): (r: seq<Block>)
    requires i + 1 < |bs|
    ensures |r| == |bs| - 1
  {
    bs[..i] + [Merge(bs[i], bs[i + 1])] + bs[i + 2..]
  }

  /** Merging any two adjacent free blocks does not change where compaction ends. */
  lemma {:induction false} MergeAnywhere(bs: seq<Block>, i: nat)
    requires i + 1 < |bs| && !bs[i].used && !bs[i + 1].used
    ensures Coalesce(MergedAt(bs, i)) == Coalesce(bs)
    ensures |Coalesce(bs)| < |bs|
  {
    var merged := MergedAt(bs, i);
    if i == 0 {
      assert merged[1..] == bs[2..];
      assert bs[1..][1..] == bs[2..];
    } else {
      assert merged[1..] == MergedAt(bs[1..], i - 1);
      MergeAnywhere(bs[1..], i - 1);
    }
  }

  /** The first of two adjacent free blocks, or else the last block. */
  function FirstPair(bs: seq<Block>): (i: nat)
    ensures bs != [] ==> i < |bs|
    ensures i + 1 < |bs| ==> !bs[i].used && !bs[i + 1].used
  {
    if |bs| <= 1 || (!bs[0].used && !bs[1].used) then 0 else 1 + FirstPair(bs[1..])
  }

  /** The list after at most `n` merges, each of the first two adjacent free blocks. */
  function MergedTimes(bs: seq<Block>, n: nat): (r: seq<Block>)
    ensures bs != [] ==> r != []
    decreases n
  {
    if n == 0 || FirstPair(bs) + 1 >= |bs| then bs else MergedTimes(MergedAt(bs, FirstPair(bs)), n - 1)
  }

  /** How many merges there are to do. */
  function Merges(bs: seq<Block>): nat {
    if bs == [] then 0 else |bs| - |Coalesce(bs)|
  }

  lemma {:induction false} PairsBefore(bs: seq<Block>)
    ensures forall m :: 0 <= m < FirstPair(bs) && m + 1 < |bs| ==> bs[m].used || bs[m + 1].used
  {
    if |bs| <= 1 {
    } else {
      PairsBefore(bs[1..]);
      assert forall i :: 0 <= i < |bs[1..]| ==> bs[1..][i] == bs[i + 1];
    }
  }

  lemma NoMergeLeft(bs: seq<Block>)
    requires bs != []
    ensures FirstPair(bs) + 1 >= |bs| <==> NoAdjacentFree(bs)
    ensures FirstPair(bs) + 1 >= |bs| <==> Merges(bs) == 0
    ensures NoAdjacentFree(bs) ==> Coalesce(bs) == bs
  {
    if FirstPair(bs) + 1 < |bs| {
      MergeAnywhere(bs, FirstPair(bs));
    } else {
      PairsBefore(bs);
      NothingToMerge(bs);
    }
  }

  /** Compaction that is stopped after `n` merges has come `n` merges closer to where it ends, or is there. */
  lemma {:induction false} MergedTimesCloser(bs: seq<Block>, n: nat)
    requires bs != []
    ensures Coalesce(MergedTimes(bs, n)) == Coalesce(bs)
    ensures |MergedTimes(bs, n)| == |bs| - if n <= Merges(bs) then n else Merges(bs)
    ensures Merges(bs) <= n ==> MergedTimes(bs, n) == Coalesce(bs)
    ensures NoAdjacentFree(MergedTimes(bs, n)) <==> Merges(bs) <= n
    decreases n
  {
    NoMergeLeft(bs);
    if n == 0 || |bs| <= FirstPair(bs) + 1 {
    } else {
      var m := MergeOne(bs, n);
      MergedTimesCloser(m, n - 1);
    }
  }

  lemma MergeOne(bs: seq<Block>, n: nat) returns (m: seq<Block>)
    requires n != 0 && FirstPair(bs) + 1 < |bs|
    ensures m == MergedAt(bs, FirstPair(bs)) && |m| == |bs| - 1
    ensures MergedTimes(bs, n) == MergedTimes(m, n - 1) && Coalesce(m) == Coalesce(bs) && Live(m) == Live(bs)
  {
    m := MergedAt(bs, FirstPair(bs));
    MergeAnywhere(bs, FirstPair(bs));
    CoalesceLive(bs);
    CoalesceLive(m);
  }

  lemma {:induction false} MergedTimesWell(bs: seq<Block>, pageSize: int, n: nat)
    requires WellFormed(bs, pageSize)
    ensures WellFormed(MergedTimes(bs, n), pageSize) && Live(MergedTimes(bs, n)) == Live(bs)
    decreases n
  {
    if n == 0 || |bs| <= FirstPair(bs) + 1 {
    } else {
      MergedWell(bs, pageSize, FirstPair(bs));
      var m := MergeOne(bs, n);
      MergedTimesWell(m, pageSize, n - 1);
    }
  }

  lemma {:induction false} NothingToMerge(bs: seq<Block>)
    requires NoAdjacentFree(bs)
    ensures Coalesce(bs) == bs
  {
    if |bs| <= 1 {
    } else {
      assert forall i :: 0 <= i < |bs[1..]| ==> bs[1..][i] == bs[i + 1];
      NothingToMerge(bs[1..]);
    }
  }

  lemma {:induction false} CoalesceNoAdjacentFree(bs: seq<Block>)
    ensures NoAdjacentFree(Coalesce(bs))
  {
    if |bs| <= 1 {
    } else {
      CoalesceNoAdjacentFree(bs[1..]);
    }
  }

  lemma {:induction false} TailTiled(bs: seq<Block>)
    requires 1 < |bs| && Chained(bs)
    ensures Chained(bs[1..]) && bs[1..][0].offset == bs[0].End() + HEADER && bs[1..][|bs| - 2] == bs[|bs| - 1]
    ensures Sized(bs) ==> Sized(bs[1..]) && 0 <= bs[0].size
  {
    assert forall i :: 0 <= i < |bs[1..]| ==> bs[1..][i] == bs[i + 1];
  }

  /** A block put, or merged, before a list that follows it. */
  lemma JoinedTiled(b: Block, rest: seq<Block>)
    requires rest != [] && Chained(rest) && rest[0].offset == b.End() + HEADER
    ensures Chained(Joined(b, rest)) && Joined(b, rest)[|Joined(b, rest)| - 1].End() == rest[|rest| - 1].End()
    ensures Sized(rest) && 0 <= b.size ==> Sized(Joined(b, rest))
  {
    var r := Joined(b, rest);
    forall k | 0 <= k < |r| - 1
      ensures r[k + 1].offset == r[k].End() + HEADER
    {
      var o := if |r| == |rest| then k else k - 1;
      if 0 <= o { assert rest[o + 1].offset == rest[o].End() + HEADER; }
    }
  }

  /** Compaction keeps the page filled and its sizes legal. */
  lemma {:induction false} CoalesceTiled(bs: seq<Block>, pageSize: int)
    requires bs != [] && bs[|bs| - 1].End() == pageSize && Chained(bs)
    ensures Chained(Coalesce(bs)) && Coalesce(bs)[|Coalesce(bs)| - 1].End() == pageSize
    ensures Sized(bs) ==> Sized(Coalesce(bs))
  {
    if |bs| <= 1 {
    } else {
      TailTiled(bs);
      CoalesceTiled(bs[1..], pageSize);
      JoinedTiled(bs[0], Coalesce(bs[1..]));
    }
  }

  /** Compaction keeps every allocation. */
  lemma {:induction false} CoalesceLive(bs: seq<Block>)
    ensures Live(Coalesce(bs)) == Live(bs)
  {
    if |bs| <= 1 {
    } else {
      CoalesceLive(bs[1..]);
      var rest := Coalesce(bs[1..]);
      assert ([Merge(bs[0], rest[0])] + rest[1..])[1..] == rest[1..];
      assert ([bs[0]] + rest)[1..] == rest;
    }
  }

  /** A page left with a single block starts over with it as the special one. */
  function Restarted(bs: seq<Block>): seq<Block> {
    if |bs| == 1 then [bs[0].(number := -1)] else bs
  }

  /** The list compaction leaves when it is stopped after `n` merges, and when it is not. */
  function SettledPartly(bs: seq<Block>, n: nat): seq<Block> {
    Restarted(MergedTimes(bs, n))
  }

  function Settled(bs: seq<Block>): seq<Block> {
    Restarted(Coalesce(bs))
  }

  lemma RestartedWell(bs: seq<Block>, pageSize: int)
    requires WellFormed(bs, pageSize) && (|bs| == 1 ==> !bs[0].used)
    ensures WellFormed(Restarted(bs), pageSize) && Live(Restarted(bs)) == Live(bs)
    ensures NoAdjacentFree(Restarted(bs)) <==> NoAdjacentFree(bs)
  {
    if |bs| == 1 {
      assert bs == [bs[0]];
      LiveOne(bs[0]);
      LiveOne(bs[0].(number := -1));
    }
  }

  /**
   Compaction keeps a page well-formed, with the same allocations, however many of its merges succeed. It leaves
   no two adjacent free blocks exactly when all of them do.
   */
  lemma SettledPartlyWell(bs: seq<Block>, pageSize: int, n: nat)
    requires WellFormed(bs, pageSize) && (|bs| == 1 ==> !bs[0].used)
    ensures WellFormed(SettledPartly(bs, n), pageSize) && Live(SettledPartly(bs, n)) == Live(bs)
    ensures NoAdjacentFree(SettledPartly(bs, n)) <==> Merges(bs) <= n
    ensures Merges(bs) <= n ==> SettledPartly(bs, n) == Settled(bs)
  {
    MergedTimesWell(bs, pageSize, n);
    MergedTimesCloser(bs, n);
    if |MergedTimes(bs, n)| == 1 {
      SingleIsFree(bs, n);
    }
    RestartedWell(MergedTimes(bs, n), pageSize);
  }

  /** A page that merges have brought down to one block holds no allocation. */
  lemma SingleIsFree(bs: seq<Block>, n: nat)
    requires bs != [] && (|bs| == 1 ==> !bs[0].used) && |MergedTimes(bs, n)| == 1
    ensures !MergedTimes(bs, n)[0].used && Merges(bs) <= n
  {
    MergedTimesCloser(bs, n);
    CollapsesWhenFree(bs);
    assert |Coalesce(bs)| == 1;
  }

  /** One merge keeps a page well-formed. */
  lemma MergedWell(bs: seq<Block>, pageSize: int, i: nat)
    requires WellFormed(bs, pageSize) && i + 1 < |bs| && !bs[i].used && !bs[i + 1].used
    ensures WellFormed(MergedAt(bs, i), pageSize)
  {
    var r := MergedAt(bs, i);
    assert bs[i + 1].offset == bs[i].End() + HEADER;
    forall k | 0 <= k < |r| - 1
      ensures r[k + 1].offset == r[k].End() + HEADER
    {
      if k < i { assert bs[k + 1].offset == bs[k].End() + HEADER; }
      if k == i {
        assert bs[i + 1].offset == bs[i].End() + HEADER;
        assert bs[i + 2].offset == bs[i + 1].End() + HEADER;
      }
      if i < k { assert bs[k + 2].offset == bs[k + 1].End() + HEADER; }
    }
  }

  /** A page collapses to a single block exactly when nothing in it is allocated (or it had one block). */
  lemma {:induction false} CollapsesWhenFree(bs: seq<Block>)
    requires bs != []
    ensures |Coalesce(bs)| == 1 <==> |bs| == 1 || forall i :: 0 <= i < |bs| ==> !bs[i].used
  {
    if |bs| <= 1 {
    } else {
      var rest := Coalesce(bs[1..]);
      assert forall i :: 0 <= i < |bs[1..]| ==> bs[1..][i] == bs[i + 1];
      CollapsesWhenFree(bs[1..]);
      if |bs| == 2 { assert rest == bs[1..]; }
    }
  }

  /** A compacted page has a single block, and is offered back, exactly when no allocation lives in it. */
  lemma OfferedWhenEmpty(bs: seq<Block>)
    requires bs != [] && (|bs| == 1 ==> !bs[0].used)
    ensures |Settled(bs)| == 1 <==> Live(bs) == {}
    ensures |Settled(bs)| == 1 ==> Settled(bs)[0].Special() && Settled(bs)[0].offset == bs[0].offset
  {
    CollapsesWhenFree(bs);
    if exists i :: 0 <= i < |bs| && bs[i].used {
      var i :| 0 <= i < |bs| && bs[i].used;
      LiveIs(bs, (bs[i].offset, bs[i].size));
    } else {
      forall a
        ensures a !in Live(bs)
      {
        LiveIs(bs, a);
      }
    }
  }

  // ---------------------------------------------------------------- undoing an allocation

  /** Where the blocks are and which are used, whatever their numbers. */
  function Geometry(bs: seq<Block>): seq<(int, int, bool)> {
    seq(|bs|, i requires 0 <= i < |bs| => (bs[i].offset, bs[i].size, bs[i].used))
  }

  /** Freeing what was just granted, and compacting, gives back the page as it was, up to block numbers. */
  lemma FreeUndoesGrant(bs: seq<Block>, j: nat, bytes: int)
    requires NoAdjacentFree(bs) && SpecialLast(bs) && j < |bs| && Fits(bs[j], bytes)
    ensures j < |Granted(bs, j, bytes)| && Granted(bs, j, bytes)[j].offset == bs[j].offset
    ensures Geometry(Coalesce(Freed(Granted(bs, j, bytes), j))) == Geometry(bs)
  {
    var r := Freed(Granted(bs, j, bytes), j);
    if |r| == |bs| {
      assert r == bs;
      NothingToMerge(bs);
    } else {
      var back := CutUndone(bs, j, bytes);
      MergeAnywhere(r, j);
      NothingToMerge(back);
    }
  }

  /** The two parts of a block that was cut, merged again. */
  lemma CutUndone(bs: seq<Block>, j: nat, bytes: int) returns (back: seq<Block>)
    requires NoAdjacentFree(bs) && SpecialLast(bs) && j < |bs| && Fits(bs[j], bytes)
    requires |Granted(bs, j, bytes)| == |bs| + 1
    ensures var r := Freed(Granted(bs, j, bytes), j);
            j + 1 < |r| && !r[j].used && !r[j + 1].used && back == MergedAt(r, j)
    ensures |back| == |bs| && NoAdjacentFree(back) && Geometry(back) == Geometry(bs)
  {
    var g := Granted(bs, j, bytes);
    var r := Freed(g, j);
    assert g[j].offset == bs[j].offset && g[j].size == bytes;
    assert !g[j + 1].used && g[j + 1].size == bs[j].size - bytes - HEADER;
    back := MergedAt(r, j);
    forall i | 0 <= i < |bs| && i != j
      ensures back[i] == bs[i]
    {
      assert i < j ==> g[i] == bs[i];
      assert j < i ==> g[i + 1] == bs[i];
    }
  }

  /** A block that is not an empty special one begins before the end of the page. */
  lemma BeginsInside(bs: seq<Block>, pageSize: int, j: nat)
    requires WellFormed(bs, pageSize) && j < |bs| && (bs[j].Special() ==> 0 < bs[j].size)
    ensures HEADER <= bs[j].offset < pageSize
  {
    Inside(bs, pageSize, j);
    if 0 < j { Apart(bs, pageSize, 0, j); }
    if j < |bs| - 1 { Apart(bs, pageSize, j, |bs| - 1); Inside(bs, pageSize, |bs| - 1); }
  }
}
