/** The block headers as they stand in the memory server, against the kernel's table. */
module HeapHeaders {
  import opened HeapBlocks
  import opened HeapTable

  /** By process, page number and offset: the size a header gives and whether it says free. */
  type HeaderMap = map<(int, int, int), (int, bool)>

  function Written(h: HeaderMap, ws: seq<HeaderWrite>): HeaderMap
    decreases |ws|
  {
    if ws == [] then h
    else Written(h[(ws[0].pid, ws[0].number, ws[0].offset) := (ws[0].size, ws[0].free)], ws[1..])
  }

  /** The header says what the table does about a block. */
  ghost predicate Tells(h: HeaderMap, pid: int, number: int, b: Block) {
    var key := (pid, number, b.offset - HEADER);
    key in h && h[key] == (b.size, !b.used)
  }

  ghost predicate Described(h: HeaderMap, page: HeapPage) {
    forall i :: 0 <= i < |page.blocks| ==> Tells(h, page.pid, page.number, page.blocks[i])
  }

  /** Every page that belongs to a process is described by its headers. */
  ghost predicate TableDescribed(h: HeaderMap, ps: seq<HeapPage>) {
    forall i :: 0 <= i < |ps| && 0 <= ps[i].pid ==> Described(h, ps[i])
  }

  // ---------------------------------------------------------------- writes

  ghost predicate AllTo(ws: seq<HeaderWrite>, pid: int, number: int) {
    forall i :: 0 <= i < |ws| ==> ws[i].pid == pid && ws[i].number == number
  }

  /** Writes to one page leave all other headers alone. */
  lemma {:induction false} WrittenElsewhere(h: HeaderMap, ws: seq<HeaderWrite>, pid: int, number: int,
                                            key: (int, int, int))
    requires AllTo(ws, pid, number) && (key.0 != pid || key.1 != number)
    ensures (key in Written(h, ws) <==> key in h) && (key in h ==> Written(h, ws)[key] == h[key])
    decreases |ws|
  {
    if ws == [] {
    } else {
      var h' := h[(ws[0].pid, ws[0].number, ws[0].offset) := (ws[0].size, ws[0].free)];
      assert AllTo(ws[1..], pid, number) by {
        assert forall i :: 0 <= i < |ws[1..]| ==> ws[1..][i] == ws[i + 1];
      }
      WrittenElsewhere(h', ws[1..], pid, number, key);
    }
  }

  lemma DescribedElsewhere(h: HeaderMap, ws: seq<HeaderWrite>, pid: int, number: int, page: HeapPage)
    requires AllTo(ws, pid, number) && (page.pid != pid || page.number != number)
    ensures Described(Written(h, ws), page) <==> Described(h, page)
  {
    forall i | 0 <= i < |page.blocks|
      ensures Tells(Written(h, ws), page.pid, page.number, page.blocks[i]) <==>
                Tells(h, page.pid, page.number, page.blocks[i])
    {
      WrittenElsewhere(h, ws, pid, number, (page.pid, page.number, page.blocks[i].offset - HEADER));
    }
  }

  /** Offsets within a page are all different. */
  lemma OffsetsDiffer(bs: seq<Block>, pageSize: int)
    requires Tiled(bs, pageSize) && Sized(bs)
    ensures forall i, j :: 0 <= i < j < |bs| ==> bs[i].offset != bs[j].offset
  {
    forall i, j | 0 <= i < j < |bs|
      ensures bs[i].offset != bs[j].offset
    {
      Apart(bs, pageSize, i, j);
    }
  }

  // ---------------------------------------------------------------- requests

  /**
   After a grant the headers describe the page exactly if the block got the size its header names, and the last block,
   whose header the kernel writes as free, is free.
   */
  predicate Recorded(bs: seq<Block>, j: nat, bytes: int)
    requires j < |bs|
  {
    if bs[j].Special() || bs[j].size > bytes + HEADER then j == |bs| - 1 || !bs[|bs| - 1].used
    else bs[j].size == bytes && j < |bs| - 1 && !bs[|bs| - 1].used
  }

  /** The headers written for a block of the process's own page. */
  function GrantHeaders(pid: int, number: int, bs: seq<Block>, j: nat, bytes: int): seq<HeaderWrite>
    requires j < |bs|
  {
    (if !bs[j].Special() && bs[j].size > bytes + HEADER then [RestHeader(pid, number, bs[j], bytes)] else [])
    + [HeaderWrite(pid, number, bs[j].offset - HEADER, bytes, false), LastHeader(pid, number, Granted(bs, j, bytes))]
  }

  lemma WrittenTwo(h: HeaderMap, u: HeaderWrite, v: HeaderWrite)
    ensures Written(h, [u, v])
            == h[(u.pid, u.number, u.offset) := (u.size, u.free)][(v.pid, v.number, v.offset) := (v.size, v.free)]
  {
    assert [u, v][1..] == [v];
    WrittenOne(h[(u.pid, u.number, u.offset) := (u.size, u.free)], v);
  }

  lemma WrittenOne(h: HeaderMap, w: HeaderWrite)
    ensures Written(h, [w]) == h[(w.pid, w.number, w.offset) := (w.size, w.free)]
  {
    assert [w][1..] == [];
  }

  lemma WrittenFirst(h: HeaderMap, u: HeaderWrite, ws: seq<HeaderWrite>)
    ensures Written(h, [u] + ws) == Written(h[(u.pid, u.number, u.offset) := (u.size, u.free)], ws)
  {
    assert ([u] + ws)[1..] == ws;
  }

  /** After the header of the rest, if there is one, has been written. */
  function AfterRest(h: HeaderMap, pid: int, number: int, bs: seq<Block>, j: nat, bytes: int): HeaderMap
    requires j < |bs|
  {
    var w := RestHeader(pid, number, bs[j], bytes);
    if !bs[j].Special() && bs[j].size > bytes + HEADER then h[(pid, number, w.offset) := (w.size, true)] else h
  }

  lemma GrantWrites(h: HeaderMap, pid: int, number: int, bs: seq<Block>, j: nat, bytes: int)
    requires j < |bs|
    ensures var last := Granted(bs, j, bytes)[|Granted(bs, j, bytes)| - 1];
            Written(h, GrantHeaders(pid, number, bs, j, bytes))
            == AfterRest(h, pid, number, bs, j, bytes)[(pid, number, bs[j].offset - HEADER) := (bytes, false)]
                 [(pid, number, last.offset - HEADER) := (last.size, true)]
  {
    var own := HeaderWrite(pid, number, bs[j].offset - HEADER, bytes, false);
    var last := LastHeader(pid, number, Granted(bs, j, bytes));
    WrittenTwo(AfterRest(h, pid, number, bs, j, bytes), own, last);
    if !bs[j].Special() && bs[j].size > bytes + HEADER {
      WrittenFirst(h, RestHeader(pid, number, bs[j], bytes), [own, last]);
      assert GrantHeaders(pid, number, bs, j, bytes) == [RestHeader(pid, number, bs[j], bytes)] + [own, last];
    } else {
      assert GrantHeaders(pid, number, bs, j, bytes) == [own, last];
    }
  }

  lemma GrantPlaces(bs: seq<Block>, j: nat, bytes: nat)
    requires SpecialLast(bs) && j < |bs| && Fits(bs[j], bytes)
    ensures var r := Granted(bs, j, bytes);
            j < |r| && r[j].offset == bs[j].offset && r[j].used &&
            if bs[j].Special() || bs[j].size > bytes + HEADER then
              |r| == |bs| + 1 && r[j + 1] == r[j + 1].(used := false, size := bs[j].size - bytes - HEADER,
                                                       offset := bs[j].offset + bytes + HEADER)
            else |r| == |bs|
  {
  }

  /** What the headers say about block `i` of the page after a grant. */
  lemma GrantTells(h: HeaderMap, pid: int, number: int, bs: seq<Block>, j: nat, bytes: nat, pageSize: int, i: nat)
    requires WellFormed(bs, pageSize) && j < |bs| && Fits(bs[j], bytes) && i < |Granted(bs, j, bytes)|
    requires Described(h, HeapPage(pid, number, bs))
    ensures var r := Granted(bs, j, bytes);
            Tells(Written(h, GrantHeaders(pid, number, bs, j, bytes)), pid, number, r[i]) <==>
            (i == j ==> r[j].size == bytes) && (i == |r| - 1 ==> !r[i].used)
  {
    var r := Granted(bs, j, bytes);
    GrantWrites(h, pid, number, bs, j, bytes);
    GrantPlaces(bs, j, bytes);
    GrantOffsets(bs, j, bytes, pageSize, i);
    if i != j && !(i == j + 1 && |r| > |bs|) {
      var o := OldBlock(bs, j, bytes, i);
      assert Tells(h, pid, number, bs[o]);
    }
  }

  lemma GrantOffsets(bs: seq<Block>, j: nat, bytes: nat, pageSize: int, i: nat)
    requires WellFormed(bs, pageSize) && j < |bs| && Fits(bs[j], bytes) && i < |Granted(bs, j, bytes)|
    ensures var r := Granted(bs, j, bytes);
            j < |r| && (i != j ==> r[i].offset != r[j].offset) && (i != |r| - 1 ==> r[i].offset != r[|r| - 1].offset) &&
            (|r| > |bs| && i != j + 1 ==> j + 1 < |r| && r[i].offset != r[j + 1].offset)
  {
    GrantedTiled(bs, pageSize, j, bytes);
    GrantedSized(bs, j, bytes);
    GrantPlaces(bs, j, bytes);
    OffsetsDiffer(Granted(bs, j, bytes), pageSize);
  }

  /** Apart from the granted block and its rest, blocks are what they were. */
  lemma OldBlock(bs: seq<Block>, j: nat, bytes: nat, i: nat) returns (o: nat)
    requires SpecialLast(bs) && j < |bs| && Fits(bs[j], bytes) && i < |Granted(bs, j, bytes)|
    requires i != j && !(i == j + 1 && |Granted(bs, j, bytes)| > |bs|)
    ensures o < |bs| && Granted(bs, j, bytes)[i] == bs[o]
  {
    o := if i < j || |Granted(bs, j, bytes)| == |bs| then i else i - 1;
  }

  /** The headers describe the page after a grant exactly under the condition above. */
  lemma GrantDescribes(h: HeaderMap, pid: int, number: int, bs: seq<Block>, j: nat, bytes: nat, pageSize: int)
    requires WellFormed(bs, pageSize) && j < |bs| && Fits(bs[j], bytes) && Described(h, HeapPage(pid, number, bs))
    ensures Described(Written(h, GrantHeaders(pid, number, bs, j, bytes)), HeapPage(pid, number, Granted(bs, j, bytes)))
            <==> Recorded(bs, j, bytes)
  {
    var r, h' := Granted(bs, j, bytes), Written(h, GrantHeaders(pid, number, bs, j, bytes));
    var page := HeapPage(pid, number, r);
    forall i: nat | i < |r|
      ensures Tells(h', pid, number, r[i]) <==> (i == j ==> r[j].size == bytes) && (i == |r| - 1 ==> !r[i].used)
    {
      GrantTells(h, pid, number, bs, j, bytes, pageSize, i);
    }
    assert Described(h', page) <==> r[j].size == bytes && !r[|r| - 1].used by {
      if Described(h', page) {
        assert Tells(h', pid, number, page.blocks[j]) && Tells(h', pid, number, page.blocks[|r| - 1]);
      }
    }
  }

  /** At home a request writes the headers of a grant. */
  lemma HeadersAtHome(ps: seq<HeapPage>, pid: int, bytes: int, pageSize: int)
    requires FirstPage(ps, pid, bytes) < |ps| && Home(ps, pid, bytes)
    requires WellFormed(ps[FirstPage(ps, pid, bytes)].blocks, pageSize)
    ensures var k := FirstPage(ps, pid, bytes);
            Headers(ps, pid, bytes)
            == GrantHeaders(pid, ps[k].number, ps[k].blocks, FirstFit(ps[k].blocks, bytes), bytes)
  {
    var k := FirstPage(ps, pid, bytes);
    ServedAtHome(ps, pid, bytes, pageSize);
    CutsAtHome(ps, pid, bytes, pageSize);
    ServedPages(ps, pid, bytes);
    HeaderParts(ps, pid, bytes, Served(ps, pid, bytes)[k].blocks);
  }

  lemma HeaderParts(ps: seq<HeapPage>, pid: int, bytes: int, own: seq<Block>)
    requires FirstPage(ps, pid, bytes) < |ps| && own == Served(ps, pid, bytes)[FirstPage(ps, pid, bytes)].blocks
    requires own != []
    ensures var number, b := ps[FirstPage(ps, pid, bytes)].number, SourceBlock(ps, pid, bytes);
            Headers(ps, pid, bytes)
            == (if Cuts(ps, pid, bytes) then [RestHeader(pid, number, b, bytes)] else [])
             + [HeaderWrite(pid, number, b.offset - HEADER, bytes, false), LastHeader(pid, number, own)]
  {
  }

  /** So every header written is that of a block of the page, and `HeadersInside` says that it meets no payload. */
  lemma HeadersOfBlocks(ps: seq<HeapPage>, pid: int, bytes: nat, pageSize: int)
    requires FirstPage(ps, pid, bytes) < |ps| && Home(ps, pid, bytes)
    requires WellFormed(ps[FirstPage(ps, pid, bytes)].blocks, pageSize)
    ensures var k := FirstPage(ps, pid, bytes);
            Served(ps, pid, bytes)[k].pid == pid &&
            forall w :: w in Headers(ps, pid, bytes) ==> IsHeaderOf(w, Served(ps, pid, bytes)[k])
  {
    var k := FirstPage(ps, pid, bytes);
    var bs, j := ps[k].blocks, FirstFit(ps[k].blocks, bytes);
    ServedAtHome(ps, pid, bytes, pageSize);
    HeadersAtHome(ps, pid, bytes, pageSize);
    GrantHeadersOfBlocks(pid, ps[k].number, bs, j, bytes);
    assert Served(ps, pid, bytes)[k] == HeapPage(pid, ps[k].number, Granted(bs, j, bytes));
  }

  lemma GrantHeadersOfBlocks(pid: int, number: int, bs: seq<Block>, j: nat, bytes: nat)
    requires SpecialLast(bs) && j < |bs| && Fits(bs[j], bytes)
    ensures forall w :: w in GrantHeaders(pid, number, bs, j, bytes) ==>
                          IsHeaderOf(w, HeapPage(pid, number, Granted(bs, j, bytes)))
  {
    var r := Granted(bs, j, bytes);
    GrantPlaces(bs, j, bytes);
    forall w | w in GrantHeaders(pid, number, bs, j, bytes)
      ensures IsHeaderOf(w, HeapPage(pid, number, r))
    {
      var i := if w == LastHeader(pid, number, r) then |r| - 1 else if w.free then j + 1 else j;
      assert w.offset == r[i].offset - HEADER;
    }
  }

  lemma HeadersTo(ps: seq<HeapPage>, pid: int, bytes: int)
    requires FirstPage(ps, pid, bytes) < |ps|
    ensures AllTo(Headers(ps, pid, bytes), pid, ps[FirstPage(ps, pid, bytes)].number)
  {
  }

  /**
   A request that memory takes all headers of leaves the table described by them exactly if the block came from the
   process's own page and the condition above holds there.
   */
  lemma AllocDescribes(h: HeaderMap, ps: seq<HeapPage>, pid: int, bytes: nat, pageSize: int)
    requires TableValid(ps, pageSize) && TableDescribed(h, ps) && 0 <= pid && FirstPage(ps, pid, bytes) < |ps|
    ensures var bs := ps[FirstPage(ps, pid, bytes)].blocks;
            TableDescribed(Written(h, Headers(ps, pid, bytes)), Served(ps, pid, bytes)) <==>
            Home(ps, pid, bytes) && Recorded(bs, FirstFit(bs, bytes), bytes)
  {
    var k, n, t := FirstPage(ps, pid, bytes), SourcePage(ps, pid, bytes), Served(ps, pid, bytes);
    var ws := Headers(ps, pid, bytes);
    HeadersTo(ps, pid, bytes);
    ServedPages(ps, pid, bytes);
    if Home(ps, pid, bytes) {
      ServedAtHome(ps, pid, bytes, pageSize);
      HeadersAtHome(ps, pid, bytes, pageSize);
      GrantDescribes(h, pid, ps[k].number, ps[k].blocks, FirstFit(ps[k].blocks, bytes), bytes, pageSize);
      OthersDescribed(h, ps, k, ws);
      OnePageDescribed(Written(h, ws), ps, k, t[k]);
      assert t == ps[k := t[k]] && t[k] == HeapPage(pid, ps[k].number, t[k].blocks);
    } else {
      var j := TakenIndex(ps, pid, bytes);
      SearchByNumber(ps, pid, bytes);
      DescribedElsewhere(h, ws, pid, ps[k].number, t[n]);
      UsedAbroad(ps, pid, bytes);
      assert Tells(h, ps[n].pid, ps[n].number, ps[n].blocks[FirstFit(ps[n].blocks, bytes)]);
      assert !Tells(h, t[n].pid, t[n].number, t[n].blocks[j]);
    }
  }

  lemma UsedAbroad(ps: seq<HeapPage>, pid: int, bytes: nat)
    requires FirstPage(ps, pid, bytes) < |ps| && !Home(ps, pid, bytes)
    ensures var r, j := Served(ps, pid, bytes)[SourcePage(ps, pid, bytes)].blocks, TakenIndex(ps, pid, bytes);
            j < |r| && r[j].used && r[j].offset == SourceBlock(ps, pid, bytes).offset
  {
  }

  /** The headers of a new page always describe it. */
  lemma NewPageDescribed(h: HeaderMap, ps: seq<HeapPage>, pid: int, base: nat, bytes: nat, pageSize: int)
    requires TableValid(ps, pageSize) && TableDescribed(h, ps) && 0 <= pid && bytes + 2 * HEADER <= pageSize
    ensures TableDescribed(Written(h, NewHeaders(pid, NextNumber(ps, pid, base), bytes, pageSize)),
                           ps + [NewPage(ps, pid, base, bytes, pageSize)])
  {
    var page, number := NewPage(ps, pid, base, bytes, pageSize), NextNumber(ps, pid, base);
    NewPageIs(ps, pid, base, bytes, pageSize);
    NextNumberFresh(ps, pid, base);
    PageAddedDescribed(h, ps, page, Block(0, bytes, true, HEADER),
                       Block(-1, pageSize - bytes - 2 * HEADER, false, bytes + 2 * HEADER));
    assert NewHeaders(pid, number, bytes, pageSize)
        == [HeaderWrite(pid, number, 0, bytes, false),
            HeaderWrite(pid, number, bytes + HEADER, pageSize - bytes - 2 * HEADER, true)];
  }

  /** A page of two blocks is added, and the headers of both are written. */
  lemma PageAddedDescribed(h: HeaderMap, ps: seq<HeapPage>, page: HeapPage, a: Block, b: Block)
    requires TableDescribed(h, ps) && page.blocks == [a, b] && a.offset != b.offset
    requires forall i :: 0 <= i < |ps| && ps[i].pid == page.pid ==> ps[i].number != page.number
    ensures TableDescribed(Written(h, [HeaderWrite(page.pid, page.number, a.offset - HEADER, a.size, !a.used),
                                       HeaderWrite(page.pid, page.number, b.offset - HEADER, b.size, !b.used)]),
                           ps + [page])
  {
    var u := HeaderWrite(page.pid, page.number, a.offset - HEADER, a.size, !a.used);
    var v := HeaderWrite(page.pid, page.number, b.offset - HEADER, b.size, !b.used);
    WrittenTwo(h, u, v);
    forall i | 0 <= i < |ps| && 0 <= ps[i].pid
      ensures Described(Written(h, [u, v]), ps[i])
    {
      DescribedElsewhere(h, [u, v], page.pid, page.number, ps[i]);
    }
  }

  // ---------------------------------------------------------------- releases

  lemma {:induction false} MergeHeadersTo(page: HeapPage, n: nat)
    ensures AllTo(MergeHeaders(page, n), page.pid, page.number)
    decreases n
  {
    var bs, i := page.blocks, FirstPair(page.blocks);
    if n == 0 || |bs| <= i + 1 {
    } else {
      MergeHeadersTo(page.(blocks := MergedAt(bs, i)), n - 1);
    }
  }

  /** Merges keep a page described. */
  lemma {:induction false} MergesDescribe(h: HeaderMap, page: HeapPage, n: nat, pageSize: int)
    requires WellFormed(page.blocks, pageSize) && Described(h, page)
    ensures Described(Written(h, MergeHeaders(page, n)), page.(blocks := MergedTimes(page.blocks, n)))
    decreases n
  {
    if n == 0 || |page.blocks| <= FirstPair(page.blocks) + 1 {
    } else {
      var h', next := MergeWrites(h, page, n, pageSize);
      MergesDescribe(h', next, n - 1, pageSize);
      assert page.(blocks := MergedTimes(page.blocks, n)) == next.(blocks := MergedTimes(next.blocks, n - 1));
    }
  }

  /** One merge and the header it writes. */
  lemma MergeWrites(h: HeaderMap, page: HeapPage, n: nat, pageSize: int) returns (h': HeaderMap, next: HeapPage)
    requires WellFormed(page.blocks, pageSize) && Described(h, page)
    requires n != 0 && FirstPair(page.blocks) + 1 < |page.blocks|
    ensures WellFormed(next.blocks, pageSize) && Described(h', next)
    ensures Written(h, MergeHeaders(page, n)) == Written(h', MergeHeaders(next, n - 1))
    ensures next.pid == page.pid && next.number == page.number
    ensures MergedTimes(page.blocks, n) == MergedTimes(next.blocks, n - 1)
  {
    var bs, i := page.blocks, FirstPair(page.blocks);
    var w := HeaderWrite(page.pid, page.number, bs[i].offset - HEADER, Merge(bs[i], bs[i + 1]).size, true);
    next, h' := page.(blocks := MergedAt(bs, i)), h[(w.pid, w.number, w.offset) := (w.size, w.free)];
    MergedWell(bs, pageSize, i);
    MergeDescribes(h, page, pageSize, i);
    var m := MergeOne(bs, n);
    NextHeaders(page, n);
    WrittenFirst(h, w, MergeHeaders(next, n - 1));
  }

  lemma NextHeaders(page: HeapPage, n: nat)
    requires n != 0 && FirstPair(page.blocks) + 1 < |page.blocks|
    ensures var bs, i := page.blocks, FirstPair(page.blocks);
            MergeHeaders(page, n)
            == [HeaderWrite(page.pid, page.number, bs[i].offset - HEADER, Merge(bs[i], bs[i + 1]).size, true)]
             + MergeHeaders(page.(blocks := MergedAt(bs, i)), n - 1)
  {
  }

  lemma MergeDescribes(h: HeaderMap, page: HeapPage, pageSize: int, i: nat)
    requires WellFormed(page.blocks, pageSize) && Described(h, page)
    requires i + 1 < |page.blocks| && !page.blocks[i].used && !page.blocks[i + 1].used
    ensures var bs := page.blocks;
            Described(h[(page.pid, page.number, bs[i].offset - HEADER) := (Merge(bs[i], bs[i + 1]).size, true)],
                      page.(blocks := MergedAt(bs, i)))
  {
    var bs, m := page.blocks, MergedAt(page.blocks, i);
    var h' := h[(page.pid, page.number, bs[i].offset - HEADER) := (Merge(bs[i], bs[i + 1]).size, true)];
    OffsetsDiffer(bs, pageSize);
    forall b | 0 <= b < |m|
      ensures Tells(h', page.pid, page.number, m[b])
    {
      assert b < i ==> Tells(h, page.pid, page.number, bs[b]);
      assert i < b ==> Tells(h, page.pid, page.number, bs[b + 1]);
    }
  }

  /** The header of a freed block describes its page. */
  lemma FreedDescribes(h: HeaderMap, page: HeapPage, pageSize: int, j: nat)
    requires WellFormed(page.blocks, pageSize) && Described(h, page) && j < |page.blocks|
    ensures var b := page.blocks[j];
            Described(h[(page.pid, page.number, b.offset - HEADER) := (b.size, true)],
                      page.(blocks := Freed(page.blocks, j)))
    ensures Described(h, page.(blocks := Freed(page.blocks, j))) <==> !page.blocks[j].used
  {
    var bs, r := page.blocks, Freed(page.blocks, j);
    var h' := h[(page.pid, page.number, bs[j].offset - HEADER) := (bs[j].size, true)];
    OffsetsDiffer(bs, pageSize);
    forall b | 0 <= b < |bs|
      ensures Tells(h', page.pid, page.number, r[b])
      ensures Tells(h, page.pid, page.number, r[b]) <==> b != j || !bs[j].used
    {
      assert Tells(h, page.pid, page.number, bs[b]);
    }
    assert Tells(h, page.pid, page.number, r[j]) <==> !bs[j].used;
  }

  /** A release keeps the table described, however many of the merges memory takes the header of. */
  lemma FreeDescribes(h: HeaderMap, ps: seq<HeapPage>, pid: int, number: int, offset: int, accepted: nat,
                      released: bool,
                      pageSize: int)
    requires TableValid(ps, pageSize) && TableDescribed(h, ps) && 0 <= pid && Frees(ps, pid, number, offset) &&
             0 < accepted
    ensures TableDescribed(Written(h, ReleasedHeaders(ps, pid, number, offset, accepted)),
                           ReleasedTable(ps, pid, number, offset, accepted, released))
  {
    var k, j, ws, t := ReleaseParts(ps, pid, number, offset, accepted, released);
    TakenDescribed(h, ps, k, j, accepted - 1, released, pageSize, ws, t);
  }

  /** Block `j` of page `k` is freed and up to `n` merges are made: the headers written, and the table afterwards. */
  ghost predicate Releases(ps: seq<HeapPage>, k: nat, j: nat, n: nat, released: bool, ws: seq<HeaderWrite>,
                           t: seq<HeapPage>)
  {
    k < |ps| && 0 <= ps[k].pid && j < |ps[k].blocks| &&
    var freed, b := ps[k].(blocks := Freed(ps[k].blocks, j)), ps[k].blocks[j];
    ws == [HeaderWrite(ps[k].pid, ps[k].number, b.offset - HEADER, b.size, true)] + MergeHeaders(freed, n) &&
    t == Compacting(ps[k := freed], k, n, released)
  }

  lemma ReleaseParts(ps: seq<HeapPage>, pid: int, number: int, offset: int, accepted: nat, released: bool)
    returns (k: nat, j: nat, ws: seq<HeaderWrite>, t: seq<HeapPage>)
    requires 0 <= pid && Frees(ps, pid, number, offset) && 0 < accepted
    ensures ws == ReleasedHeaders(ps, pid, number, offset, accepted)
    ensures t == ReleasedTable(ps, pid, number, offset, accepted, released)
    ensures Releases(ps, k, j, accepted - 1, released, ws, t)
  {
    k, j := PageOf(ps, pid, number), BlockAt(ps[PageOf(ps, pid, number)].blocks, offset);
    ws := ReleasedHeaders(ps, pid, number, offset, accepted);
    t := ReleasedTable(ps, pid, number, offset, accepted, released);
    ReleaseWrites(ps, pid, number, offset, accepted, released);
  }

  /**
   If memory does not take even the header of the freed block, that block is described wrongly, unless it was
   free.
   */
  lemma FreeUntold(h: HeaderMap, ps: seq<HeapPage>, pid: int, number: int, offset: int, pageSize: int)
    requires TableValid(ps, pageSize) && TableDescribed(h, ps) && 0 <= pid && Frees(ps, pid, number, offset)
    ensures var k := PageOf(ps, pid, number);
            TableDescribed(h, Marked(ps, pid, number, offset)) <==> !ps[k].blocks[BlockAt(ps[k].blocks, offset)].used
  {
    var k := PageOf(ps, pid, number);
    var j := BlockAt(ps[k].blocks, offset);
    FreedDescribes(h, ps[k], pageSize, j);
    OnePageDescribed(h, ps, k, ps[k].(blocks := Freed(ps[k].blocks, j)));
    ReleaseWrites(ps, pid, number, offset, 0, false);
  }

  lemma ReleaseWrites(ps: seq<HeapPage>, pid: int, number: int, offset: int, accepted: nat, released: bool)
    requires Frees(ps, pid, number, offset)
    ensures var k := PageOf(ps, pid, number); var j := BlockAt(ps[k].blocks, offset);
            var freed, b := ps[k].(blocks := Freed(ps[k].blocks, j)), ps[k].blocks[j];
            var w := HeaderWrite(ps[k].pid, ps[k].number, b.offset - HEADER, b.size, true);
            Marked(ps, pid, number, offset) == ps[k := freed] &&
            ReleasedHeaders(ps, pid, number, offset, accepted)
            == (if accepted == 0 then [] else [w] + MergeHeaders(freed, accepted - 1)) &&
            ReleasedTable(ps, pid, number, offset, accepted, released)
            == if accepted == 0 then ps[k := freed] else Compacting(ps[k := freed], k, accepted - 1, released)
  {
  }

  lemma TakenDescribed(h: HeaderMap, ps: seq<HeapPage>, k: nat, j: nat, n: nat, released: bool, pageSize: int,
                       ws: seq<HeaderWrite>, t: seq<HeapPage>)
    requires TableValid(ps, pageSize) && TableDescribed(h, ps) && Releases(ps, k, j, n, released, ws, t)
    ensures TableDescribed(Written(h, ws), t)
  {
    var freed := ps[k].(blocks := Freed(ps[k].blocks, j));
    FreePageDescribed(h, ps[k], j, n, pageSize);
    OthersDescribed(h, ps, k, ws);
    var settled := freed.(blocks := SettledPartly(freed.blocks, n));
    OnePageDescribed(Written(h, ws), ps, k, settled);
    assert ps[k := freed][k := settled] == ps[k := settled];
    OnePageLessDescribed(Written(h, ws), ps, k, freed);
  }

  lemma OthersDescribed(h: HeaderMap, ps: seq<HeapPage>, k: nat, ws: seq<HeaderWrite>)
    requires Numbered(ps) && TableDescribed(h, ps) && k < |ps| && 0 <= ps[k].pid && AllTo(ws, ps[k].pid, ps[k].number)
    ensures forall i :: 0 <= i < |ps| && i != k && 0 <= ps[i].pid ==> Described(Written(h, ws), ps[i])
  {
    forall i | 0 <= i < |ps| && i != k && 0 <= ps[i].pid
      ensures Described(Written(h, ws), ps[i])
    {
      assert !SamePage(ps[if i < k then i else k], ps[if i < k then k else i]);
      DescribedElsewhere(h, ws, ps[k].pid, ps[k].number, ps[i]);
    }
  }

  lemma OnePageDescribed(h: HeaderMap, ps: seq<HeapPage>, k: nat, page: HeapPage)
    requires k < |ps| && 0 <= page.pid && forall i :: 0 <= i < |ps| && i != k && 0 <= ps[i].pid ==> Described(h, ps[i])
    ensures TableDescribed(h, ps[k := page]) <==> Described(h, page)
  {
    assert ps[k := page][k] == page;
  }

  lemma OnePageLessDescribed(h: HeaderMap, ps: seq<HeapPage>, k: nat, page: HeapPage)
    requires k < |ps| && forall i :: 0 <= i < |ps| && i != k && 0 <= ps[i].pid ==> Described(h, ps[i])
    ensures TableDescribed(h, ps[k := page][..k] + ps[k := page][k + 1..])
  {
  }

  lemma FreePageDescribed(h: HeaderMap, page: HeapPage, j: nat, n: nat, pageSize: int)
    requires WellFormed(page.blocks, pageSize) && Described(h, page) && j < |page.blocks|
    ensures var t := page.(blocks := Freed(page.blocks, j));
            var w := HeaderWrite(page.pid, page.number, page.blocks[j].offset - HEADER, page.blocks[j].size, true);
            Described(Written(h, [w] + MergeHeaders(t, n)), t.(blocks := SettledPartly(t.blocks, n))) &&
            AllTo([w] + MergeHeaders(t, n), page.pid, page.number)
  {
    var t := page.(blocks := Freed(page.blocks, j));
    var w := HeaderWrite(page.pid, page.number, page.blocks[j].offset - HEADER, page.blocks[j].size, true);
    FreedDescribes(h, page, pageSize, j);
    FreedWell(page.blocks, j, pageSize);
    WrittenFirst(h, w, MergeHeaders(t, n));
    MergesDescribe(h[(w.pid, w.number, w.offset) := (w.size, w.free)], t, n, pageSize);
    MergeHeadersTo(t, n);
    RestartDescribed(Written(h, [w] + MergeHeaders(t, n)), t, MergedTimes(t.blocks, n));
  }

  lemma RestartDescribed(h: HeaderMap, page: HeapPage, bs: seq<Block>)
    requires Described(h, page.(blocks := bs))
    ensures Described(h, page.(blocks := Restarted(bs)))
  {
    forall i | 0 <= i < |bs|
      ensures Tells(h, page.pid, page.number, Restarted(bs)[i])
    {
      assert Tells(h, page.pid, page.number, page.(blocks := bs).blocks[i]);
    }
  }
}
