/**
 The addresses that heap requests hand out. A process uses a block at the offset it has, in the process's own page,
 whichever page the block was taken from.
 */
module HeapAddresses {
  import opened Rounding
  import opened HeapBlocks
  import opened HeapTable
  import opened HeapHeaders

  /** Two allocations begin at the same place or share a byte. */
  predicate Clash(a: int, n: int, b: int, m: int) {
    a == b || (a < b + m && b < a + n)
  }

  function AddressOf(number: int, offset: int, pageSize: int): int {
    number * pageSize + offset
  }

  /** Nothing allocated in the page clashes with these bytes of it. */
  ghost predicate OffsetFree(bs: seq<Block>, offset: int, size: int) {
    forall j :: 0 <= j < |bs| && bs[j].used ==> !Clash(offset, size, bs[j].offset, bs[j].size)
  }

  /** Nothing allocated in any page of the process clashes with the range. */
  ghost predicate Unclaimed(ps: seq<HeapPage>, pid: int, address: int, size: int, pageSize: int) {
    forall i, j :: 0 <= i < |ps| && ps[i].pid == pid && 0 <= j < |ps[i].blocks| && ps[i].blocks[j].used ==>
                     !Clash(address, size, AddressOf(ps[i].number, ps[i].blocks[j].offset, pageSize),
                            ps[i].blocks[j].size)
  }

  /** Bytes of pages with different numbers are different. */
  lemma OtherPages(m: int, n: int, pageSize: int, o: int, s: int, p: int, t: int)
    requires m != n && 0 <= s && 0 <= t
    requires HEADER <= o && o + s <= pageSize && HEADER <= p && p + t <= pageSize
    ensures !Clash(AddressOf(m, o, pageSize), s, AddressOf(n, p, pageSize), t)
  {
    if m < n { Beyond(m, n, pageSize); } else { Beyond(n, m, pageSize); }
    if p == pageSize { assert t == 0; }
  }

  lemma Beyond(m: int, n: int, pageSize: int)
    requires m < n && 0 <= pageSize
    ensures m * pageSize + pageSize <= n * pageSize
  {
    TimesGrows(1, n - m, pageSize);
    assert (n - m) * pageSize == n * pageSize - m * pageSize;
  }

  /** In a well-formed page, bytes of a free block clash with no allocation. */
  lemma FreeBlockFree(bs: seq<Block>, pageSize: int, j: nat, size: nat)
    requires Tiled(bs, pageSize) && Sized(bs) && j < |bs| && !bs[j].used && size <= bs[j].size
    ensures OffsetFree(bs, bs[j].offset, size)
  {
    forall i | 0 <= i < |bs| && bs[i].used
      ensures !Clash(bs[j].offset, size, bs[i].offset, bs[i].size)
    {
      if i < j { Apart(bs, pageSize, i, j); } else { Apart(bs, pageSize, j, i); }
    }
  }

  /**
   What a process is given clashes with nothing it has if and only if the block comes from its own page or the own
   page has nothing allocated at that offset.
   */
  lemma HandedOut(ps: seq<HeapPage>, pid: int, bytes: nat, size: nat, pageSize: int)
    requires TableValid(ps, pageSize) && 0 <= pid && FirstPage(ps, pid, bytes) < |ps|
    requires size <= SourceBlock(ps, pid, bytes).size
    ensures Unclaimed(ps, pid, Pointer(ps, pid, bytes, pageSize), size, pageSize) <==>
              Home(ps, pid, bytes) ||
              OffsetFree(ps[FirstPage(ps, pid, bytes)].blocks, SourceBlock(ps, pid, bytes).offset, size)
  {
    var k, n, b := FirstPage(ps, pid, bytes), SourcePage(ps, pid, bytes), SourceBlock(ps, pid, bytes);
    Inside(ps[n].blocks, pageSize, FirstFit(ps[n].blocks, bytes));
    if Home(ps, pid, bytes) { FreeBlockFree(ps[k].blocks, pageSize, FirstFit(ps[k].blocks, bytes), size); }
    OwnPageDecides(ps, k, b.offset, size, pageSize);
  }

  /** A range inside a page of a process can only clash with allocations of that page. */
  lemma OwnPageDecides(ps: seq<HeapPage>, k: nat, offset: int, size: nat, pageSize: int)
    requires TableValid(ps, pageSize) && k < |ps| && 0 <= ps[k].pid && HEADER <= offset && offset + size <= pageSize
    ensures Unclaimed(ps, ps[k].pid, AddressOf(ps[k].number, offset, pageSize), size, pageSize) <==>
              OffsetFree(ps[k].blocks, offset, size)
  {
    var address := AddressOf(ps[k].number, offset, pageSize);
    if Unclaimed(ps, ps[k].pid, address, size, pageSize) {
      forall j | 0 <= j < |ps[k].blocks| && ps[k].blocks[j].used
        ensures !Clash(offset, size, ps[k].blocks[j].offset, ps[k].blocks[j].size)
      {
        var b := ps[k].blocks[j];
        assert !Clash(address, size, AddressOf(ps[k].number, b.offset, pageSize), b.size);
      }
    }
    if OffsetFree(ps[k].blocks, offset, size) {
      forall i, j | 0 <= i < |ps| && ps[i].pid == ps[k].pid && 0 <= j < |ps[i].blocks| && ps[i].blocks[j].used
        ensures !Clash(address, size, AddressOf(ps[i].number, ps[i].blocks[j].offset, pageSize), ps[i].blocks[j].size)
      {
        var b := ps[i].blocks[j];
        Inside(ps[i].blocks, pageSize, j);
        if i != k {
          assert !SamePage(ps[if i < k then i else k], ps[if i < k then k else i]);
          OtherPages(ps[k].number, ps[i].number, pageSize, offset, size, b.offset, b.size);
        }
      }
    }
  }

  /** The first block of a new page is new to the process. */
  lemma NewPageUnclaimed(ps: seq<HeapPage>, pid: int, base: nat, bytes: nat, pageSize: int)
    requires TableValid(ps, pageSize) && bytes + 2 * HEADER <= pageSize
    ensures Unclaimed(ps, pid, AddressOf(NextNumber(ps, pid, base), HEADER, pageSize), bytes, pageSize)
  {
    var number := NextNumber(ps, pid, base);
    NextNumberFresh(ps, pid, base);
    forall i, j | 0 <= i < |ps| && ps[i].pid == pid && 0 <= j < |ps[i].blocks| && ps[i].blocks[j].used
      ensures !Clash(AddressOf(number, HEADER, pageSize), bytes,
                     AddressOf(ps[i].number, ps[i].blocks[j].offset, pageSize), ps[i].blocks[j].size)
    {
      Inside(ps[i].blocks, pageSize, j);
      OtherPages(number, ps[i].number, pageSize, HEADER, bytes, ps[i].blocks[j].offset, ps[i].blocks[j].size);
    }
  }

  /**
   The block a request will get lies in bytes that the process has not: it comes from a new page, or from its own, or
   the own page has nothing allocated at that offset.
   */
  ghost predicate GivesFresh(ps: seq<HeapPage>, pid: int, bytes: int) {
    FirstPage(ps, pid, bytes) < |ps| ==>
      Home(ps, pid, bytes) ||
      OffsetFree(ps[FirstPage(ps, pid, bytes)].blocks, SourceBlock(ps, pid, bytes).offset, bytes)
  }

  /** Whatever address is handed out, it is fresh exactly under that condition. */
  lemma FreshIff(ps: seq<HeapPage>, pid: int, base: nat, bytes: nat, pointer: int, pageSize: int)
    requires TableValid(ps, pageSize) && 0 <= pid && bytes + 2 * HEADER <= pageSize
    requires pointer == if FirstPage(ps, pid, bytes) < |ps| then Pointer(ps, pid, bytes, pageSize)
                        else NextNumber(ps, pid, base) * pageSize + HEADER
    ensures Unclaimed(ps, pid, pointer, bytes, pageSize) <==> GivesFresh(ps, pid, bytes)
  {
    if FirstPage(ps, pid, bytes) < |ps| {
      HandedOut(ps, pid, bytes, bytes, pageSize);
    } else {
      NewPageUnclaimed(ps, pid, base, bytes, pageSize);
    }
  }

  // ---------------------------------------------------------------- headers against payloads

  /** A header at that offset lies beside every payload allocated in the page. */
  ghost predicate HeaderFree(bs: seq<Block>, offset: int) {
    forall j :: 0 <= j < |bs| && bs[j].used ==> offset + HEADER <= bs[j].offset || bs[j].End() <= offset
  }

  ghost predicate HeadersFree(bs: seq<Block>, writes: seq<HeaderWrite>) {
    forall w :: w in writes ==> HeaderFree(bs, w.offset)
  }

  /** The header of a block of the page meets no payload. */
  lemma BlockHeaderFree(bs: seq<Block>, pageSize: int, i: nat)
    requires Tiled(bs, pageSize) && Sized(bs) && i < |bs|
    ensures HeaderFree(bs, bs[i].offset - HEADER)
  {
    forall j | 0 <= j < |bs| && bs[j].used
      ensures bs[i].offset <= bs[j].offset || bs[j].End() <= bs[i].offset - HEADER
    {
      if i < j { Apart(bs, pageSize, i, j); }
      if j < i { Apart(bs, pageSize, j, i); }
    }
  }

  /** A header that begins inside a free block, and ends before the block does, meets none either. */
  lemma InnerHeaderFree(bs: seq<Block>, pageSize: int, i: nat, offset: int)
    requires Tiled(bs, pageSize) && Sized(bs) && i < |bs| && !bs[i].used
    requires bs[i].offset <= offset && offset + HEADER <= bs[i].End()
    ensures HeaderFree(bs, offset)
  {
    forall j | 0 <= j < |bs| && bs[j].used
      ensures offset + HEADER <= bs[j].offset || bs[j].End() <= offset
    {
      if i < j { Apart(bs, pageSize, i, j); }
      if j < i { Apart(bs, pageSize, j, i); }
    }
  }

  /**
   A request writes no header into a payload allocated in the process's own page if and only if the block comes from
   that page, or the places of its header, and of that of its rest if it is cut, lie beside the payloads there.
   */
  lemma HeadersBeside(ps: seq<HeapPage>, pid: int, bytes: nat, pageSize: int)
    requires TableValid(ps, pageSize) && FirstPage(ps, pid, bytes) < |ps|
    ensures var own, b := ps[FirstPage(ps, pid, bytes)].blocks, SourceBlock(ps, pid, bytes);
            HeadersFree(own, Headers(ps, pid, bytes)) <==>
              Home(ps, pid, bytes) ||
              (HeaderFree(own, b.offset - HEADER) &&
               (CutsForeign(ps, pid, bytes) ==> HeaderFree(own, Rest(b, bytes).offset - HEADER)))
  {
    if Home(ps, pid, bytes) {
      HomeHeadersBeside(ps, pid, bytes, pageSize);
    } else {
      AbroadHeaders(ps, pid, bytes, pageSize);
    }
  }

  lemma HomeHeadersBeside(ps: seq<HeapPage>, pid: int, bytes: nat, pageSize: int)
    requires TableValid(ps, pageSize) && FirstPage(ps, pid, bytes) < |ps| && Home(ps, pid, bytes)
    ensures HeadersFree(ps[FirstPage(ps, pid, bytes)].blocks, Headers(ps, pid, bytes))
  {
    var k := FirstPage(ps, pid, bytes);
    HeadersAtHome(ps, pid, bytes, pageSize);
    GrantHeadersBeside(pid, ps[k].number, ps[k].blocks, FirstFit(ps[k].blocks, bytes), bytes, pageSize);
  }

  lemma GrantHeadersBeside(pid: int, number: int, bs: seq<Block>, j: nat, bytes: nat, pageSize: int)
    requires WellFormed(bs, pageSize) && j < |bs| && Fits(bs[j], bytes)
    ensures HeadersFree(bs, GrantHeaders(pid, number, bs, j, bytes))
  {
    var r, b := Granted(bs, j, bytes), bs[j];
    GrantPlaces(bs, j, bytes);
    BlockHeaderFree(bs, pageSize, j);
    BlockHeaderFree(bs, pageSize, |bs| - 1);
    if b.Special() || b.size > bytes + HEADER { InnerHeaderFree(bs, pageSize, j, b.offset + bytes); }
    assert r[|r| - 1].offset == bs[|bs| - 1].offset || r[|r| - 1].offset - HEADER == b.offset + bytes;
  }

  lemma AbroadHeaders(ps: seq<HeapPage>, pid: int, bytes: nat, pageSize: int)
    requires TableValid(ps, pageSize) && FirstPage(ps, pid, bytes) < |ps| && !Home(ps, pid, bytes)
    ensures var own, b := ps[FirstPage(ps, pid, bytes)].blocks, SourceBlock(ps, pid, bytes);
            HeadersFree(own, Headers(ps, pid, bytes)) <==>
              HeaderFree(own, b.offset - HEADER) &&
              (CutsForeign(ps, pid, bytes) ==> HeaderFree(own, Rest(b, bytes).offset - HEADER))
  {
    var k, b := FirstPage(ps, pid, bytes), SourceBlock(ps, pid, bytes);
    var own, t := ps[k].blocks, Served(ps, pid, bytes)[k].blocks;
    ServedPages(ps, pid, bytes);
    CutsAbroad(ps, pid, bytes);
    BlockHeaderFree(own, pageSize, |own| - 1);
    ThreeHeaders(own, CutsForeign(ps, pid, bytes), RestHeader(pid, ps[k].number, b, bytes),
                 HeaderWrite(pid, ps[k].number, b.offset - HEADER, bytes, false), LastHeader(pid, ps[k].number, t));
  }

  lemma ThreeHeaders(bs: seq<Block>, cut: bool, rest: HeaderWrite, mine: HeaderWrite, last: HeaderWrite)
    ensures HeadersFree(bs, (if cut then [rest] else []) + [mine, last]) <==>
              (cut ==> HeaderFree(bs, rest.offset)) && HeaderFree(bs, mine.offset) && HeaderFree(bs, last.offset)
  {
    var ws := (if cut then [rest] else []) + [mine, last];
    assert mine in ws && last in ws && (cut ==> rest in ws);
    assert forall w :: w in ws ==> w == mine || w == last || (cut && w == rest);
  }

  /** Abroad a block is cut just if it is a foreign cut, and the last block of the own page changes with that alone. */
  lemma CutsAbroad(ps: seq<HeapPage>, pid: int, bytes: nat)
    requires FirstPage(ps, pid, bytes) < |ps| && !Home(ps, pid, bytes)
    ensures Cuts(ps, pid, bytes) <==> CutsForeign(ps, pid, bytes)
    ensures var own := ps[FirstPage(ps, pid, bytes)].blocks;
            var t := Served(ps, pid, bytes)[FirstPage(ps, pid, bytes)].blocks;
            own != [] && t != [] &&
            (t[|t| - 1] == own[|own| - 1] ||
             (CutsForeign(ps, pid, bytes) && t[|t| - 1] == Rest(SourceBlock(ps, pid, bytes), bytes)))
  {
    var k, n := FirstPage(ps, pid, bytes), SourcePage(ps, pid, bytes);
    assert Searched(ps, pid, bytes)[k] == ps[k];
  }
}
