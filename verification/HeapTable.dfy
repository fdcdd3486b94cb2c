/** The kernel's table of heap pages, each with its blocks, and what requests and releases make of it. */
module HeapTable {
  import opened Rounding
  import opened HeapBlocks

  datatype HeapPage = HeapPage(pid: int, number: int, blocks: seq<Block>)

  /** A header the kernel asks the memory server to write: 5 bytes at `offset` of page `number` of `pid`. */
  datatype HeaderWrite = HeaderWrite(pid: int, number: int, offset: int, size: int, free: bool)

  /** `Silence`: the requesting CPU is sent nothing. */
  datatype AllocReply = Address(pointer: int) | Rejected | NoPage | TooBig | Silence

  /** Whether the memory server takes the header of the rest of a cut block, of the block itself, of the last block. */
  datatype Answers = Answers(rest: bool, own: bool, last: bool)

  // ---------------------------------------------------------------- searching the table

  /** What a search over the pages compares. */
  datatype Wanted = OfProcess(pid: int) | WithNumber(number: int) {
    predicate Accepts(page: HeapPage) {
      match this
      case OfProcess(pid) => page.pid == pid
      case WithNumber(number) => page.number == number
    }
  }

  /** The first wanted page with a block that fits; |ps| if there is none. */
  function FirstRoom(ps: seq<HeapPage>, wanted: Wanted, bytes: int): (k: nat)
    ensures k <= |ps|
    ensures k < |ps| ==> wanted.Accepts(ps[k]) && FirstFit(ps[k].blocks, bytes) < |ps[k].blocks|
    ensures forall i :: 0 <= i < k && wanted.Accepts(ps[i]) ==> FirstFit(ps[i].blocks, bytes) == |ps[i].blocks|
  {
    if ps == [] || (wanted.Accepts(ps[0]) && FirstFit(ps[0].blocks, bytes) < |ps[0].blocks|) then 0
    else 1 + FirstRoom(ps[1..], wanted, bytes)
  }

  /** `check_existe_pagina_con_espacio` searches by process, `buscar_primer_bloque_libre` by number alone. */
  function FirstPage(ps: seq<HeapPage>, pid: int, bytes: int): nat {
    FirstRoom(ps, OfProcess(pid), bytes)
  }

  function FirstNumbered(ps: seq<HeapPage>, number: int, bytes: int): nat {
    FirstRoom(ps, WithNumber(number), bytes)
  }

  ghost predicate SamePage(a: HeapPage, b: HeapPage) {
    0 <= a.pid && a.pid == b.pid && a.number == b.number
  }

  /** A process has at most one page with a given number; pages that were given back belong to none. */
  ghost predicate Numbered(ps: seq<HeapPage>) {
    && (forall i, j {:trigger SamePage(ps[i], ps[j])} :: 0 <= i < j < |ps| ==> !SamePage(ps[i], ps[j]))
    && (forall i :: 0 <= i < |ps| ==> (0 <= ps[i].pid <==> 0 <= ps[i].number))
  }

  /**
   Some page of the process has a free block that is large enough; the special one must be larger by a header, down to
   the last byte.
   */
  ghost predicate HasRoom(ps: seq<HeapPage>, pid: int, bytes: int) {
    exists i, j :: 0 <= i < |ps| && ps[i].pid == pid && 0 <= j < |ps[i].blocks| && !ps[i].blocks[j].used &&
                   (if ps[i].blocks[j].number < 0 then bytes + 5 else bytes) <= ps[i].blocks[j].size
  }

  lemma RoomIff(ps: seq<HeapPage>, pid: int, bytes: int)
    ensures FirstPage(ps, pid, bytes) < |ps| <==> HasRoom(ps, pid, bytes)
  {
    var k := FirstPage(ps, pid, bytes);
    if k < |ps| {
      var j := FirstFit(ps[k].blocks, bytes);
      assert Fits(ps[k].blocks[j], bytes);
    }
    if HasRoom(ps, pid, bytes) {
      var i, j :| 0 <= i < |ps| && ps[i].pid == pid && 0 <= j < |ps[i].blocks| && !ps[i].blocks[j].used &&
                  (if ps[i].blocks[j].number < 0 then bytes + 5 else bytes) <= ps[i].blocks[j].size;
      assert Fits(ps[i].blocks[j], bytes);
      assert OfProcess(pid).Accepts(ps[i]);
    }
  }

  /** The page the block search ends in, and the block it takes there. */
  function SourcePage(ps: seq<HeapPage>, pid: int, bytes: int): (n: nat)
    requires FirstPage(ps, pid, bytes) < |ps|
    ensures n <= FirstPage(ps, pid, bytes) && FirstFit(ps[n].blocks, bytes) < |ps[n].blocks|
    ensures ps[n].number == ps[FirstPage(ps, pid, bytes)].number
  {
    FirstNumbered(ps, ps[FirstPage(ps, pid, bytes)].number, bytes)
  }

  function SourceBlock(ps: seq<HeapPage>, pid: int, bytes: int): (b: Block)
    requires FirstPage(ps, pid, bytes) < |ps|
    ensures Fits(b, bytes)
  {
    var n := SourcePage(ps, pid, bytes);
    ps[n].blocks[FirstFit(ps[n].blocks, bytes)]
  }

  /** It ends in the page that was found for the process. */
  predicate Home(ps: seq<HeapPage>, pid: int, bytes: int)
    requires FirstPage(ps, pid, bytes) < |ps|
  {
    SourcePage(ps, pid, bytes) == FirstPage(ps, pid, bytes)
  }

  /**
   The block search looks at page numbers only. It ends in the page that was found for the process exactly
   when no page before that one carries the same number and has room.
   */
  lemma SearchByNumber(ps: seq<HeapPage>, pid: int, bytes: int)
    requires FirstPage(ps, pid, bytes) < |ps|
    ensures var k := FirstPage(ps, pid, bytes);
            Home(ps, pid, bytes) <==> forall i :: 0 <= i < k && ps[i].number == ps[k].number ==>
                                                    FirstFit(ps[i].blocks, bytes) == |ps[i].blocks|
    ensures !Home(ps, pid, bytes) ==> ps[SourcePage(ps, pid, bytes)].pid != pid
  {
  }

  /** Two processes with a page of the same number: the second one is given a block of the first. */
  lemma ForeignBlock()
    ensures var free := [Block(-1, 95, false, 5)];
            var ps := [HeapPage(1, 3, free), HeapPage(2, 3, free)];
            FirstPage(ps, 2, 10) == 1 && SourcePage(ps, 2, 10) == 0
  {
    var free := [Block(-1, 95, false, 5)];
    var ps := [HeapPage(1, 3, free), HeapPage(2, 3, free)];
    assert Fits(free[0], 10);
    assert ps[1..][0] == ps[1];
  }

  // ---------------------------------------------------------------- page numbers

  /** `calcular_numero_nuevapagina`, from the number of pages the process started with. */
  function NextNumber(ps: seq<HeapPage>, pid: int, base: int): (n: int)
    ensures base <= n
  {
    if ps == [] then base
    else
      var n := NextNumber(ps[..|ps| - 1], pid, base);
      var p := ps[|ps| - 1];
      if p.pid == pid && p.number >= n then p.number + 1 else n
  }

  /** The new number is larger than every number the process has. */
  lemma {:induction false} NextNumberFresh(ps: seq<HeapPage>, pid: int, base: int)
    ensures forall i :: 0 <= i < |ps| && ps[i].pid == pid ==> ps[i].number < NextNumber(ps, pid, base)
    ensures NextNumber(ps, pid, base) == base ||
            exists i :: 0 <= i < |ps| && ps[i].pid == pid && ps[i].number == NextNumber(ps, pid, base) - 1
  {
    if ps == [] {
    } else {
      var s := ps[..|ps| - 1];
      NextNumberFresh(s, pid, base);
      assert forall i :: 0 <= i < |s| ==> s[i] == ps[i];
      if NextNumber(ps, pid, base) != base && NextNumber(ps, pid, base) == NextNumber(s, pid, base) {
        var i :| 0 <= i < |s| && s[i].pid == pid && s[i].number == NextNumber(s, pid, base) - 1;
        assert ps[i].number == NextNumber(ps, pid, base) - 1;
      }
    }
  }

  ghost predicate TableValid(ps: seq<HeapPage>, pageSize: int) {
    Numbered(ps) && forall i :: 0 <= i < |ps| ==> WellFormed(ps[i].blocks, pageSize)
  }

  ghost predicate TableCompacted(ps: seq<HeapPage>) {
    forall i :: 0 <= i < |ps| ==> NoAdjacentFree(ps[i].blocks)
  }

  /** Before the first page of a process that has room, no page of it carries the same number. */
  lemma OnePage(ps: seq<HeapPage>, k: nat)
    requires Numbered(ps) && k < |ps| && 0 <= ps[k].pid
    ensures forall i :: 0 <= i < k ==> !(ps[i].number == ps[k].number && ps[i].pid == ps[k].pid)
  {
    forall i | 0 <= i < k
      ensures !(ps[i].number == ps[k].number && ps[i].pid == ps[k].pid)
    {
      assert !SamePage(ps[i], ps[k]);
    }
  }

  // ---------------------------------------------------------------- a request served from the table

  function WithBlocks(ps: seq<HeapPage>, k: nat, bs: seq<Block>): seq<HeapPage>
    requires k < |ps|
  {
    ps[k := ps[k].(blocks := bs)]
  }

  /** What a block larger than needed leaves over. */
  function Rest(b: Block, bytes: int): Block {
    Block(0, b.size - bytes - HEADER, false, b.offset + bytes + HEADER)
  }

  /**
   The cut of block `j` of page `n`. The rest goes to page `k`, behind the block that begins where the cut one does;
   without such a block there is no cut.
   */
  function CutInto(ps: seq<HeapPage>, k: nat, n: nat, j: nat, bytes: int): seq<HeapPage>
    requires k < |ps| && n < |ps| && j < |ps[n].blocks|
  {
    var b := ps[n].blocks[j];
    var i := BlockAt(ps[k].blocks, b.offset);
    if b.size <= bytes + HEADER || i == |ps[k].blocks| then ps
    else
      var t := WithBlocks(ps, n, ps[n].blocks[j := b.(size := bytes)]);
      WithBlocks(t, k, t[k].blocks[..i + 1] + [Rest(b, bytes)] + t[k].blocks[i + 1..])
  }

  /** The table once the block search has taken its block. */
  function Searched(ps: seq<HeapPage>, pid: int, bytes: int): seq<HeapPage>
    requires FirstPage(ps, pid, bytes) < |ps|
  {
    var n := SourcePage(ps, pid, bytes);
    WithBlocks(ps, n, Taken(ps[n].blocks, FirstFit(ps[n].blocks, bytes), bytes))
  }

  /** Where the taken block is in its page then. */
  function TakenIndex(ps: seq<HeapPage>, pid: int, bytes: int): (j: nat)
    requires FirstPage(ps, pid, bytes) < |ps|
    ensures j < |Searched(ps, pid, bytes)[SourcePage(ps, pid, bytes)].blocks|
  {
    var bs := ps[SourcePage(ps, pid, bytes)].blocks;
    if SourceBlock(ps, pid, bytes).Special() then |bs| - 1 else FirstFit(bs, bytes)
  }

  /** The table after a request that some page of the process can serve. */
  function Served(ps: seq<HeapPage>, pid: int, bytes: int): seq<HeapPage>
    requires FirstPage(ps, pid, bytes) < |ps|
  {
    CutInto(Searched(ps, pid, bytes), FirstPage(ps, pid, bytes), SourcePage(ps, pid, bytes),
            TakenIndex(ps, pid, bytes), bytes)
  }

  /** Only blocks change, and no page is left without any. */
  lemma ServedPages(ps: seq<HeapPage>, pid: int, bytes: int)
    requires FirstPage(ps, pid, bytes) < |ps|
    ensures |Served(ps, pid, bytes)| == |ps|
    ensures forall i :: 0 <= i < |ps| ==>
              Served(ps, pid, bytes)[i].pid == ps[i].pid && Served(ps, pid, bytes)[i].number == ps[i].number
    ensures Served(ps, pid, bytes)[FirstPage(ps, pid, bytes)].blocks != []
  {
  }

  /** At home the block is given out as one page by itself would give it. */
  lemma ServedAtHome(ps: seq<HeapPage>, pid: int, bytes: int, pageSize: int)
    requires FirstPage(ps, pid, bytes) < |ps| && Home(ps, pid, bytes)
    requires WellFormed(ps[FirstPage(ps, pid, bytes)].blocks, pageSize)
    ensures var k := FirstPage(ps, pid, bytes);
            Served(ps, pid, bytes) == WithBlocks(ps, k, Granted(ps[k].blocks, FirstFit(ps[k].blocks, bytes), bytes))
  {
    var k := FirstPage(ps, pid, bytes);
    var bs := ps[k].blocks;
    var j := FirstFit(bs, bytes);
    TakenThenTrimmed(bs, j, bytes);
    TakenBlockAt(bs, pageSize, j, bytes);
    assert TakenIndex(ps, pid, bytes) == j && Searched(ps, pid, bytes)[k].blocks == Taken(bs, j, bytes);
    CutAlone(Searched(ps, pid, bytes), k, j, bytes);
  }

  lemma CutAlone(ps: seq<HeapPage>, k: nat, j: nat, bytes: int)
    requires k < |ps| && j < |ps[k].blocks| && BlockAt(ps[k].blocks, ps[k].blocks[j].offset) == j
    ensures CutInto(ps, k, k, j, bytes) == WithBlocks(ps, k, Trimmed(ps[k].blocks, j, bytes))
  {
    var bs, b := ps[k].blocks, ps[k].blocks[j];
    var r := bs[j := b.(size := bytes)];
    assert r[..j + 1] + [Rest(b, bytes)] + r[j + 1..] == bs[..j] + [b.(size := bytes), Rest(b, bytes)] + bs[j + 1..];
  }

  /**
   In another process's page a normal block is cut only if the requesting process has a block at the same offset;
   nothing is cut from a special block, or from one that leaves no room for a header.
   */
  predicate CutsForeign(ps: seq<HeapPage>, pid: int, bytes: int)
    requires FirstPage(ps, pid, bytes) < |ps|
  {
    var b, own := SourceBlock(ps, pid, bytes), ps[FirstPage(ps, pid, bytes)].blocks;
    !Home(ps, pid, bytes) && !b.Special() && b.size > bytes + HEADER && BlockAt(own, b.offset) < |own|
  }

  /** Otherwise the foreign page alone changes: the process is given a block that its own page does not record. */
  lemma ServedAbroad(ps: seq<HeapPage>, pid: int, bytes: int, pageSize: int)
    requires FirstPage(ps, pid, bytes) < |ps| && !Home(ps, pid, bytes) && !CutsForeign(ps, pid, bytes)
    requires WellFormed(ps[SourcePage(ps, pid, bytes)].blocks, pageSize)
    ensures var n := SourcePage(ps, pid, bytes); var b := SourceBlock(ps, pid, bytes);
            var size := if b.Special() then bytes else b.size;
            Served(ps, pid, bytes) == Searched(ps, pid, bytes) &&
            Searched(ps, pid, bytes)[n].blocks == Granted(ps[n].blocks, FirstFit(ps[n].blocks, bytes), size)
  {
  }

  /** A foreign cut leaves a hole in the page it takes the block from. */
  lemma ForeignCutBreaks(ps: seq<HeapPage>, pid: int, bytes: int, pageSize: int)
    requires FirstPage(ps, pid, bytes) < |ps| && CutsForeign(ps, pid, bytes)
    requires Tiled(ps[SourcePage(ps, pid, bytes)].blocks, pageSize)
    ensures !Tiled(Served(ps, pid, bytes)[SourcePage(ps, pid, bytes)].blocks, pageSize)
  {
    var n := SourcePage(ps, pid, bytes);
    var bs, r := ps[n].blocks, Served(ps, pid, bytes)[n].blocks;
    var j := FirstFit(bs, bytes);
    assert r == bs[j := bs[j].(used := true, size := bytes)];
    if j + 1 < |bs| {
      assert bs[j + 1].offset == bs[j].End() + HEADER;
      assert r[j + 1].offset != r[j].End() + HEADER;
    } else {
      assert r[|r| - 1].End() != pageSize;
    }
  }

  /**
   Process 2 asks for 10 bytes, and 10 of the 40 free bytes of process 1 are given to it; the rest goes to its
   own page.
   */
  lemma ForeignCutHappens() returns (ps: seq<HeapPage>)
    ensures TableValid(ps, 100) && TableCompacted(ps) && FirstPage(ps, 2, 10) < |ps| && CutsForeign(ps, 2, 10)
    ensures !TableValid(Served(ps, 2, 10), 100)
  {
    var first := [Block(0, 40, false, 5), Block(0, 10, true, 50), Block(-1, 35, false, 65)];
    var second := [Block(0, 10, true, 5), Block(-1, 80, false, 20)];
    ps := [HeapPage(1, 3, first), HeapPage(2, 3, second)];
    assert FirstFit(first, 10) == 0;
    assert second[1..][0] == second[1] && FirstFit(second, 10) == 1;
    assert ps[1..][0] == ps[1] && FirstPage(ps, 2, 10) == 1 && SourcePage(ps, 2, 10) == 0;
    assert BlockAt(second, 5) == 0;
    ServedWell(ps, 2, 10, 100);
  }

  /** A negative request leaves a block with a negative size, unless the block is taken whole. */
  predicate Shrinks(ps: seq<HeapPage>, pid: int, bytes: int)
    requires FirstPage(ps, pid, bytes) < |ps|
  {
    var b := SourceBlock(ps, pid, bytes);
    bytes < 0 && (b.Special() || (Home(ps, pid, bytes) && b.size > bytes + HEADER))
  }

  /** The table stays well-formed exactly when no foreign block is cut and no size becomes negative. */
  lemma ServedWell(ps: seq<HeapPage>, pid: int, bytes: int, pageSize: int)
    requires FirstPage(ps, pid, bytes) < |ps| && TableValid(ps, pageSize)
    ensures TableValid(Served(ps, pid, bytes), pageSize) <==> !CutsForeign(ps, pid, bytes) && !Shrinks(ps, pid, bytes)
    ensures TableCompacted(ps) && !CutsForeign(ps, pid, bytes) ==> TableCompacted(Served(ps, pid, bytes))
  {
    var n := SourcePage(ps, pid, bytes);
    ServedNumbered(ps, pid, bytes);
    if CutsForeign(ps, pid, bytes) {
      ForeignCutBreaks(ps, pid, bytes, pageSize);
    } else {
      var bs, b := ps[n].blocks, SourceBlock(ps, pid, bytes);
      var j := FirstFit(bs, bytes);
      var size := if Home(ps, pid, bytes) || b.Special() then bytes else b.size;
      if Home(ps, pid, bytes) {
        ServedAtHome(ps, pid, bytes, pageSize);
      } else {
        ServedAbroad(ps, pid, bytes, pageSize);
      }
      assert Served(ps, pid, bytes) == WithBlocks(ps, n, Granted(bs, j, size));
      GrantedWell(ps, n, j, size, pageSize);
    }
  }

  lemma GrantedWell(ps: seq<HeapPage>, n: nat, j: nat, bytes: int, pageSize: int)
    requires TableValid(ps, pageSize) && n < |ps| && j < |ps[n].blocks| && Fits(ps[n].blocks[j], bytes)
    ensures TableValid(WithBlocks(ps, n, Granted(ps[n].blocks, j, bytes)), pageSize) <==>
              0 <= bytes || (!ps[n].blocks[j].Special() && ps[n].blocks[j].size <= bytes + HEADER)
    ensures TableCompacted(ps) ==> TableCompacted(WithBlocks(ps, n, Granted(ps[n].blocks, j, bytes)))
  {
    var bs := ps[n].blocks;
    GrantedTiled(bs, pageSize, j, bytes);
    GrantedSized(bs, j, bytes);
    if NoAdjacentFree(bs) { GrantedNoAdjacentFree(bs, pageSize, j, bytes); }
    OnePageDecides(ps, n, Granted(bs, j, bytes), pageSize);
  }

  /** Where the allocation that a page of the process can serve will begin. */
  function Pointer(ps: seq<HeapPage>, pid: int, bytes: int, pageSize: int): int
    requires FirstPage(ps, pid, bytes) < |ps|
  {
    ps[FirstPage(ps, pid, bytes)].number * pageSize + SourceBlock(ps, pid, bytes).offset
  }

  /** Is a block cut, whosever it is? */
  predicate Cuts(ps: seq<HeapPage>, pid: int, bytes: int)
    requires FirstPage(ps, pid, bytes) < |ps|
  {
    var t := Searched(ps, pid, bytes);
    var own, b := t[FirstPage(ps, pid, bytes)].blocks, t[SourcePage(ps, pid, bytes)].blocks[TakenIndex(ps, pid, bytes)];
    b.size > bytes + HEADER && BlockAt(own, b.offset) < |own|
  }

  /** What the requesting CPU is told: where its block is, if memory took every header. */
  function Answer(ps: seq<HeapPage>, pid: int, bytes: int, answers: Answers, pageSize: int): AllocReply
    requires FirstPage(ps, pid, bytes) < |ps|
  {
    if (Cuts(ps, pid, bytes) ==> answers.rest) && answers.own && answers.last then
      Address(Pointer(ps, pid, bytes, pageSize))
    else Rejected
  }

  /** For a new page it takes two refusals to be told anything but the address. */
  function NewAnswer(number: int, answers: Answers, pageSize: int): AllocReply {
    if answers.own && answers.last then Address(number * pageSize + HEADER)
    else if answers.own || answers.last then Silence
    else Rejected
  }

  /** The header writes of a request: the rest of a cut block, the block, the last block of the page. */
  function Headers(ps: seq<HeapPage>, pid: int, bytes: int): seq<HeaderWrite>
    requires FirstPage(ps, pid, bytes) < |ps|
  {
    ServedPages(ps, pid, bytes);
    var k, b := FirstPage(ps, pid, bytes), SourceBlock(ps, pid, bytes);
    var own := Served(ps, pid, bytes)[k].blocks;
    (if Cuts(ps, pid, bytes) then [RestHeader(pid, ps[k].number, b, bytes)] else [])
    + [HeaderWrite(pid, ps[k].number, b.offset - HEADER, bytes, false), LastHeader(pid, ps[k].number, own)]
  }

  function RestHeader(pid: int, number: int, b: Block, bytes: int): HeaderWrite {
    HeaderWrite(pid, number, Rest(b, bytes).offset - HEADER, Rest(b, bytes).size, true)
  }

  /** The header of the last block of a page, which the kernel always declares free. */
  function LastHeader(pid: int, number: int, bs: seq<Block>): HeaderWrite
    requires bs != []
  {
    HeaderWrite(pid, number, bs[|bs| - 1].offset - HEADER, bs[|bs| - 1].size, true)
  }

  /** The address is told exactly if memory took every header. */
  lemma AnswerTells(ps: seq<HeapPage>, pid: int, bytes: int, answers: Answers, pageSize: int)
    requires FirstPage(ps, pid, bytes) < |ps|
    ensures 2 <= |Headers(ps, pid, bytes)| <= 3
    ensures var accepted := (|Headers(ps, pid, bytes)| == 3 ==> answers.rest) && answers.own && answers.last;
            Answer(ps, pid, bytes, answers, pageSize)
            == if accepted then Address(Pointer(ps, pid, bytes, pageSize)) else Rejected
  {
  }

  /** For a new page there are two headers; if memory takes one of them alone, nothing is told. */
  lemma NewAnswerTells(number: int, answers: Answers, pageSize: int)
    ensures NewAnswer(number, answers, pageSize).Address? <==> answers.own && answers.last
    ensures NewAnswer(number, answers, pageSize) == Rejected <==> !answers.own && !answers.last
    ensures NewAnswer(number, answers, pageSize).Address? || NewAnswer(number, answers, pageSize) in {Rejected, Silence}
  {
  }

  lemma ServedNumbered(ps: seq<HeapPage>, pid: int, bytes: int)
    requires FirstPage(ps, pid, bytes) < |ps| && Numbered(ps)
    ensures Numbered(Served(ps, pid, bytes))
  {
    ServedPages(ps, pid, bytes);
    NamesNumbered(ps, Served(ps, pid, bytes));
  }

  /** Serving the request leaves the table ill-formed. */
  predicate Spoils(ps: seq<HeapPage>, pid: int, bytes: int, pageSize: int, granted: bool) {
    bytes + 2 * HEADER <= pageSize &&
    if FirstPage(ps, pid, bytes) < |ps| then CutsForeign(ps, pid, bytes) || Shrinks(ps, pid, bytes)
    else granted && bytes < 0
  }

  // ---------------------------------------------------------------- a request that takes a new page

  /** The whole-page special block of a new page. */
  function Blank(pageSize: int): seq<Block> {
    [Block(-1, pageSize - HEADER, false, HEADER)]
  }

  function NewPage(ps: seq<HeapPage>, pid: int, base: nat, bytes: int, pageSize: int): HeapPage {
    HeapPage(pid, NextNumber(ps, pid, base), Granted(Blank(pageSize), 0, bytes))
  }

  lemma NewPageIs(ps: seq<HeapPage>, pid: int, base: nat, bytes: int, pageSize: int)
    ensures NewPage(ps, pid, base, bytes, pageSize).blocks
            == [Block(0, bytes, true, HEADER), Block(-1, pageSize - bytes - 2 * HEADER, false, bytes + 2 * HEADER)]
  {
    var blank := Blank(pageSize);
    assert MaxNumber(blank) == 0 by { assert blank[..0] == []; }
    assert blank[..0] + blank[1..] == [];
  }

  function NewHeaders(pid: int, number: int, bytes: int, pageSize: int): seq<HeaderWrite> {
    [HeaderWrite(pid, number, 0, bytes, false),
     HeaderWrite(pid, number, bytes + HEADER, pageSize - bytes - 2 * HEADER, true)]
  }

  lemma NewPageNumbered(ps: seq<HeapPage>, pid: int, base: nat, page: HeapPage)
    requires Numbered(ps) && 0 <= pid && page.pid == pid && page.number == NextNumber(ps, pid, base)
    ensures Numbered(ps + [page])
  {
    NextNumberFresh(ps, pid, base);
    var t := ps + [page];
    forall i, j | 0 <= i < j < |t|
      ensures !SamePage(t[i], t[j])
    {
      if j < |ps| { assert !SamePage(ps[i], ps[j]); }
    }
  }

  lemma NewPageWell(ps: seq<HeapPage>, pid: int, base: nat, bytes: int, pageSize: int)
    requires bytes + 2 * HEADER <= pageSize && TableValid(ps, pageSize) && 0 <= pid
    ensures TableValid(ps + [NewPage(ps, pid, base, bytes, pageSize)], pageSize) <==> 0 <= bytes
    ensures TableCompacted(ps) ==> TableCompacted(ps + [NewPage(ps, pid, base, bytes, pageSize)])
  {
    var page := NewPage(ps, pid, base, bytes, pageSize);
    NewPageIs(ps, pid, base, bytes, pageSize);
    NewPageNumbered(ps, pid, base, page);
    assert WellFormed(page.blocks, pageSize) <==> 0 <= page.blocks[0].size;
    assert NoAdjacentFree(page.blocks);
    OneMore(ps, page, pageSize);
  }

  lemma OneMore(ps: seq<HeapPage>, page: HeapPage, pageSize: int)
    requires TableValid(ps, pageSize) && Numbered(ps + [page]) && NoAdjacentFree(page.blocks)
    ensures TableValid(ps + [page], pageSize) <==> WellFormed(page.blocks, pageSize)
    ensures TableCompacted(ps) ==> TableCompacted(ps + [page])
  {
    assert (ps + [page])[|ps|] == page;
  }

  // ---------------------------------------------------------------- releases

  /** The page of `pid` with that number. */
  function PageOf(ps: seq<HeapPage>, pid: int, number: int): (k: nat)
    ensures k <= |ps| && (k < |ps| ==> ps[k].pid == pid && ps[k].number == number)
    ensures forall i :: 0 <= i < k ==> !(ps[i].pid == pid && ps[i].number == number)
  {
    if ps == [] || (ps[0].pid == pid && ps[0].number == number) then 0 else 1 + PageOf(ps[1..], pid, number)
  }

  lemma PageOfIs(ps: seq<HeapPage>, k: nat)
    requires Numbered(ps) && k < |ps| && 0 <= ps[k].pid
    ensures PageOf(ps, ps[k].pid, ps[k].number) == k
  {
    OnePage(ps, k);
  }

  /** Some block of the process begins at that offset of that page. */
  predicate Frees(ps: seq<HeapPage>, pid: int, number: int, offset: int) {
    var k := PageOf(ps, pid, number);
    k < |ps| && BlockAt(ps[k].blocks, offset) < |ps[k].blocks|
  }

  /** Some block of a page of the process with that number begins at that offset. */
  ghost predicate HasBlock(ps: seq<HeapPage>, pid: int, number: int, offset: int) {
    exists i, j :: 0 <= i < |ps| && ps[i].pid == pid && ps[i].number == number &&
                   0 <= j < |ps[i].blocks| && ps[i].blocks[j].offset == offset
  }

  lemma FreesIff(ps: seq<HeapPage>, pid: int, number: int, offset: int)
    requires Numbered(ps) && 0 <= pid
    ensures Frees(ps, pid, number, offset) <==> HasBlock(ps, pid, number, offset)
  {
    forall i | 0 <= i < |ps| && ps[i].pid == pid && ps[i].number == number
      ensures PageOf(ps, pid, number) == i
    {
      PageOfIs(ps, i);
    }
  }

  /** The table with that block marked free. */
  function Marked(ps: seq<HeapPage>, pid: int, number: int, offset: int): (r: seq<HeapPage>)
    requires Frees(ps, pid, number, offset)
    ensures |r| == |ps|
  {
    var k := PageOf(ps, pid, number);
    WithBlocks(ps, k, Freed(ps[k].blocks, BlockAt(ps[k].blocks, offset)))
  }

  lemma MarkedWell(ps: seq<HeapPage>, k: nat, j: nat, pageSize: int)
    requires TableValid(ps, pageSize) && k < |ps| && j < |ps[k].blocks|
    ensures TableValid(WithBlocks(ps, k, Freed(ps[k].blocks, j)), pageSize)
  {
    FreedWell(ps[k].blocks, j, pageSize);
    OnePageWell(ps, k, Freed(ps[k].blocks, j), pageSize);
  }

  /**
   The table after at most `n` merges in the page at `k`; a page left with one block is dropped if memory takes
   it back.
   */
  function Compacting(ps: seq<HeapPage>, k: nat, n: nat, released: bool): seq<HeapPage>
    requires k < |ps|
  {
    var r := SettledPartly(ps[k].blocks, n);
    if |r| == 1 && released then ps[..k] + ps[k + 1..] else WithBlocks(ps, k, r)
  }

  /** Tables whose pages have the same names one by one. */
  lemma NamesNumbered(ps: seq<HeapPage>, t: seq<HeapPage>)
    requires Numbered(ps) && |t| == |ps|
    requires forall i :: 0 <= i < |ps| ==> t[i].pid == ps[i].pid && t[i].number == ps[i].number
    ensures Numbered(t)
  {
    forall i, j | 0 <= i < j < |t|
      ensures !SamePage(t[i], t[j])
    {
      assert !SamePage(ps[i], ps[j]);
    }
  }

  lemma LessNumbered(ps: seq<HeapPage>, k: nat)
    requires Numbered(ps) && k < |ps|
    ensures Numbered(ps[..k] + ps[k + 1..])
  {
    var t := ps[..k] + ps[k + 1..];
    forall i, j | 0 <= i < j < |t|
      ensures !SamePage(t[i], t[j])
    {
      assert !SamePage(ps[if i < k then i else i + 1], ps[if j < k then j else j + 1]);
    }
  }

  lemma CompactingNumbered(ps: seq<HeapPage>, k: nat, n: nat, released: bool)
    requires Numbered(ps) && k < |ps|
    ensures Numbered(Compacting(ps, k, n, released))
  {
    NamesNumbered(ps, WithBlocks(ps, k, SettledPartly(ps[k].blocks, n)));
    LessNumbered(ps, k);
  }

  /** One page gets other blocks. */
  lemma OnePageWell(ps: seq<HeapPage>, k: nat, bs: seq<Block>, pageSize: int)
    requires TableValid(ps, pageSize) && k < |ps| && WellFormed(bs, pageSize)
    ensures TableValid(WithBlocks(ps, k, bs), pageSize)
    ensures (forall i :: 0 <= i < |ps| && i != k ==> NoAdjacentFree(ps[i].blocks)) ==>
              (TableCompacted(WithBlocks(ps, k, bs)) <==> NoAdjacentFree(bs))
  {
    assert WithBlocks(ps, k, bs)[k].blocks == bs;
    NamesNumbered(ps, WithBlocks(ps, k, bs));
  }

  lemma OnePageDecides(ps: seq<HeapPage>, k: nat, bs: seq<Block>, pageSize: int)
    requires TableValid(ps, pageSize) && k < |ps|
    ensures TableValid(WithBlocks(ps, k, bs), pageSize) <==> WellFormed(bs, pageSize)
    ensures TableCompacted(ps) && NoAdjacentFree(bs) ==> TableCompacted(WithBlocks(ps, k, bs))
  {
    assert WithBlocks(ps, k, bs)[k].blocks == bs;
    if WellFormed(bs, pageSize) { OnePageWell(ps, k, bs, pageSize); }
  }

  lemma OnePageLess(ps: seq<HeapPage>, k: nat, pageSize: int)
    requires TableValid(ps, pageSize) && k < |ps|
    ensures TableValid(ps[..k] + ps[k + 1..], pageSize)
    ensures (forall i :: 0 <= i < |ps| && i != k ==> NoAdjacentFree(ps[i].blocks)) ==>
              TableCompacted(ps[..k] + ps[k + 1..])
  {
    LessNumbered(ps, k);
  }

  /** Compaction keeps the table well-formed; it is compacted afterwards exactly when all merges were made. */
  lemma CompactingWell(ps: seq<HeapPage>, k: nat, n: nat, released: bool, pageSize: int)
    requires TableValid(ps, pageSize) && k < |ps| && (|ps[k].blocks| == 1 ==> !ps[k].blocks[0].used)
    ensures TableValid(Compacting(ps, k, n, released), pageSize)
    ensures (forall i :: 0 <= i < |ps| && i != k ==> NoAdjacentFree(ps[i].blocks)) ==>
              (TableCompacted(Compacting(ps, k, n, released)) <==> Merges(ps[k].blocks) <= n)
  {
    var r := SettledPartly(ps[k].blocks, n);
    SettledPartlyWell(ps[k].blocks, pageSize, n);
    if |r| == 1 && released { OnePageLess(ps, k, pageSize); } else { OnePageWell(ps, k, r, pageSize); }
  }

  /** The header writes of at most `n` merges. */
  function MergeHeaders(page: HeapPage, n: nat): seq<HeaderWrite>
    decreases n
  {
    var bs, i := page.blocks, FirstPair(page.blocks);
    if n == 0 || i + 1 >= |bs| then []
    else
      [HeaderWrite(page.pid, page.number, bs[i].offset - HEADER, Merge(bs[i], bs[i + 1]).size, true)]
      + MergeHeaders(page.(blocks := MergedAt(bs, i)), n - 1)
  }

  /** What the block search has taken, as it stands in the table then. */
  lemma TakenBlock(ps: seq<HeapPage>, pid: int, bytes: int)
    requires FirstPage(ps, pid, bytes) < |ps|
    ensures var b := Searched(ps, pid, bytes)[SourcePage(ps, pid, bytes)].blocks[TakenIndex(ps, pid, bytes)];
            b.offset == SourceBlock(ps, pid, bytes).offset &&
            (Cuts(ps, pid, bytes) ==> b.size == SourceBlock(ps, pid, bytes).size)
  {
  }

  lemma Stopped(ps: seq<HeapPage>, k: nat, n: nat, released: bool)
    requires k < |ps| && 1 < |ps[k].blocks| && (n == 0 || FirstPair(ps[k].blocks) + 1 == |ps[k].blocks|)
    ensures Compacting(ps, k, n, released) == ps && MergedTimes(ps[k].blocks, n) == ps[k].blocks
    ensures MergeHeaders(ps[k], n) == []
  {
  }

  lemma OneMerge(ps: seq<HeapPage>, k: nat, n: nat, released: bool)
    requires k < |ps| && 0 < n && FirstPair(ps[k].blocks) + 1 < |ps[k].blocks|
    ensures var bs, i := ps[k].blocks, FirstPair(ps[k].blocks); var m := MergedAt(bs, i);
            var t := WithBlocks(ps, k, m);
            Compacting(ps, k, n, released) == Compacting(t, k, n - 1, released) &&
            MergedTimes(bs, n) == MergedTimes(m, n - 1) &&
            MergeHeaders(ps[k], n)
            == [HeaderWrite(ps[k].pid, ps[k].number, bs[i].offset - HEADER, m[i].size, true)]
             + MergeHeaders(t[k], n - 1)
  {
  }

  lemma Single(ps: seq<HeapPage>, k: nat, n: nat, released: bool)
    requires k < |ps| && |ps[k].blocks| == 1
    ensures MergedTimes(ps[k].blocks, n) == ps[k].blocks && MergeHeaders(ps[k], n) == []
    ensures Compacting(ps, k, n, released)
            == if released then ps[..k] + ps[k + 1..] else WithBlocks(ps, k, [ps[k].blocks[0].(number := -1)])
  {
  }

  /** The headers a release writes when memory takes the first `accepted` of them. */
  function FreeHeaders(ps: seq<HeapPage>, pid: int, number: int, offset: int, accepted: nat): seq<HeaderWrite>
    requires Frees(ps, pid, number, offset) && 0 < accepted
  {
    var k := PageOf(ps, pid, number);
    [HeaderWrite(pid, number, offset - HEADER, ps[k].blocks[BlockAt(ps[k].blocks, offset)].size, true)]
    + MergeHeaders(Marked(ps, pid, number, offset)[k], accepted - 1)
  }

  /** The table after a release, and the headers it has written. */
  function ReleasedTable(ps: seq<HeapPage>, pid: int, number: int, offset: int, accepted: nat,
                         released: bool): seq<HeapPage>
  {
    if !Frees(ps, pid, number, offset) then ps
    else if accepted == 0 then Marked(ps, pid, number, offset)
    else Compacting(Marked(ps, pid, number, offset), PageOf(ps, pid, number), accepted - 1, released)
  }

  function ReleasedHeaders(ps: seq<HeapPage>, pid: int, number: int, offset: int, accepted: nat): seq<HeaderWrite> {
    if !Frees(ps, pid, number, offset) || accepted == 0 then [] else FreeHeaders(ps, pid, number, offset, accepted)
  }

  lemma ReleasedNumbered(ps: seq<HeapPage>, pid: int, number: int, offset: int, accepted: nat, released: bool)
    requires Numbered(ps)
    ensures Numbered(ReleasedTable(ps, pid, number, offset, accepted, released))
  {
    if Frees(ps, pid, number, offset) {
      var k := PageOf(ps, pid, number);
      NamesNumbered(ps, Marked(ps, pid, number, offset));
      if 0 < accepted { CompactingNumbered(Marked(ps, pid, number, offset), k, accepted - 1, released); }
    }
  }

  /** How many merges a release leaves to be done. */
  function MergesAfter(ps: seq<HeapPage>, pid: int, number: int, offset: int): nat
    requires Frees(ps, pid, number, offset)
  {
    Merges(Marked(ps, pid, number, offset)[PageOf(ps, pid, number)].blocks)
  }

  /** A release keeps the table well-formed; it is compacted afterwards exactly when memory took all headers. */
  lemma FreeWell(ps: seq<HeapPage>, pid: int, number: int, offset: int, accepted: nat, released: bool, pageSize: int)
    requires TableValid(ps, pageSize)
    ensures TableValid(ReleasedTable(ps, pid, number, offset, accepted, released), pageSize)
    ensures TableCompacted(ps) && Frees(ps, pid, number, offset) && 0 < accepted ==>
              (TableCompacted(ReleasedTable(ps, pid, number, offset, accepted, released)) <==>
               MergesAfter(ps, pid, number, offset) < accepted)
  {
    if Frees(ps, pid, number, offset) {
      var k := PageOf(ps, pid, number);
      FreedPageWell(ps, k, BlockAt(ps[k].blocks, offset), if 0 < accepted then accepted - 1 else 0, released, pageSize);
    }
  }

  lemma FreedPageWell(ps: seq<HeapPage>, k: nat, j: nat, n: nat, released: bool, pageSize: int)
    requires TableValid(ps, pageSize) && k < |ps| && j < |ps[k].blocks|
    ensures var t := WithBlocks(ps, k, Freed(ps[k].blocks, j));
            TableValid(t, pageSize) && TableValid(Compacting(t, k, n, released), pageSize) &&
            (TableCompacted(ps) ==> (TableCompacted(Compacting(t, k, n, released)) <==> Merges(t[k].blocks) <= n))
  {
    MarkedWell(ps, k, j, pageSize);
    CompactingWell(WithBlocks(ps, k, Freed(ps[k].blocks, j)), k, n, released, pageSize);
  }

  // ---------------------------------------------------------------- the end of a process

  function GivenBackPage(page: HeapPage, pid: int, pageSize: int): HeapPage {
    if page.pid == pid then HeapPage(-1, -1, Blank(pageSize)) else page
  }

  function GivenBack(ps: seq<HeapPage>, pid: int, pageSize: int): seq<HeapPage> {
    seq(|ps|, i requires 0 <= i < |ps| => GivenBackPage(ps[i], pid, pageSize))
  }

  // ---------------------------------------------------------------- undoing a request

  /**
   Freeing what was just allocated at home finds the block again through the pointer and gives the page the
   blocks it had, up to their numbers.
   */
  lemma FreeUndoesAlloc(ps: seq<HeapPage>, pid: int, bytes: nat, pageSize: int)
    requires 2 * HEADER <= pageSize && TableValid(ps, pageSize) && TableCompacted(ps)
    requires 0 <= pid && FirstPage(ps, pid, bytes) < |ps| && Home(ps, pid, bytes)
    ensures 0 <= Pointer(ps, pid, bytes, pageSize)
    ensures var k, t := FirstPage(ps, pid, bytes), Served(ps, pid, bytes);
            var pointer := Pointer(ps, pid, bytes, pageSize);
            var number, offset := pointer / pageSize, pointer % pageSize;
            number == ps[k].number && Frees(t, pid, number, offset) && PageOf(t, pid, number) == k &&
            Geometry(Coalesce(Marked(t, pid, number, offset)[k].blocks)) == Geometry(ps[k].blocks)
  {
    var k := FirstPage(ps, pid, bytes);
    var bs := ps[k].blocks;
    var j := FirstFit(bs, bytes);
    PointerSplits(ps, pid, bytes, pageSize);
    ServedAtHome(ps, pid, bytes, pageSize);
    ServedWell(ps, pid, bytes, pageSize);
    PageOfIs(Served(ps, pid, bytes), k);
    FreeUndoesGrant(bs, j, bytes);
    BlockAtIs(Granted(bs, j, bytes), pageSize, j);
  }

  /** A pointer leads back to the page number and the offset it was made of. */
  lemma PointerSplits(ps: seq<HeapPage>, pid: int, bytes: nat, pageSize: int)
    requires 2 * HEADER <= pageSize && TableValid(ps, pageSize) && 0 <= pid && FirstPage(ps, pid, bytes) < |ps|
    ensures var pointer := Pointer(ps, pid, bytes, pageSize);
            0 <= pointer && pointer / pageSize == ps[FirstPage(ps, pid, bytes)].number &&
            pointer % pageSize == SourceBlock(ps, pid, bytes).offset
  {
    var n := SourcePage(ps, pid, bytes);
    BeginsInside(ps[n].blocks, pageSize, FirstFit(ps[n].blocks, bytes));
    QuotientUnique(ps[FirstPage(ps, pid, bytes)].number, pageSize, SourceBlock(ps, pid, bytes).offset,
                   Pointer(ps, pid, bytes, pageSize));
  }

  /**
   The pointer to a block of another process's page is no good for freeing it: the release is refused, or frees a
   block of the process's own page that begins at the same offset. Either way the foreign block stays used.
   */
  lemma ForeignBlockStays(ps: seq<HeapPage>, pid: int, bytes: nat, pageSize: int)
    requires 2 * HEADER <= pageSize && TableValid(ps, pageSize)
    requires 0 <= pid && FirstPage(ps, pid, bytes) < |ps| && !Home(ps, pid, bytes) && !CutsForeign(ps, pid, bytes)
    ensures 0 <= Pointer(ps, pid, bytes, pageSize)
    ensures var k, n, t, b := FirstPage(ps, pid, bytes), SourcePage(ps, pid, bytes), Served(ps, pid, bytes),
                              SourceBlock(ps, pid, bytes);
            var pointer := Pointer(ps, pid, bytes, pageSize);
            var number, offset := pointer / pageSize, pointer % pageSize;
            t[k] == ps[k] && (Frees(t, pid, number, offset) <==> BlockAt(ps[k].blocks, b.offset) < |ps[k].blocks|) &&
            (Frees(t, pid, number, offset) ==> Marked(t, pid, number, offset)[n] == t[n]) &&
            Live(t[n].blocks) == Live(ps[n].blocks) + {(b.offset, if b.Special() then bytes else b.size)}
  {
    var k, n := FirstPage(ps, pid, bytes), SourcePage(ps, pid, bytes);
    var t, b := Served(ps, pid, bytes), SourceBlock(ps, pid, bytes);
    PointerSplits(ps, pid, bytes, pageSize);
    ServedAbroad(ps, pid, bytes, pageSize);
    ServedNumbered(ps, pid, bytes);
    PageOfIs(t, k);
    GrantedLive(ps[n].blocks, FirstFit(ps[n].blocks, bytes), if b.Special() then bytes else b.size);
  }

  lemma CutsAtHome(ps: seq<HeapPage>, pid: int, bytes: int, pageSize: int)
    requires FirstPage(ps, pid, bytes) < |ps| && Home(ps, pid, bytes)
    requires WellFormed(ps[FirstPage(ps, pid, bytes)].blocks, pageSize)
    ensures var b := SourceBlock(ps, pid, bytes); Cuts(ps, pid, bytes) <==> !b.Special() && b.size > bytes + HEADER
  {
    var k := FirstPage(ps, pid, bytes);
    var bs := ps[k].blocks;
    var j := FirstFit(bs, bytes);
    TakenBlockAt(bs, pageSize, j, bytes);
    assert Searched(ps, pid, bytes)[k].blocks == Taken(bs, j, bytes) && TakenIndex(ps, pid, bytes) == j;
  }

  // ---------------------------------------------------------------- the headers

  /** Header writes stay inside the page, wherever the block comes from. */
  lemma HeadersInPage(ps: seq<HeapPage>, pid: int, bytes: nat, pageSize: int)
    requires TableValid(ps, pageSize) && FirstPage(ps, pid, bytes) < |ps|
    ensures forall w :: w in Headers(ps, pid, bytes) ==> 0 <= w.offset && w.offset + HEADER <= pageSize
  {
    var n, b := SourcePage(ps, pid, bytes), SourceBlock(ps, pid, bytes);
    Inside(ps[n].blocks, pageSize, FirstFit(ps[n].blocks, bytes));
    TakenBlock(ps, pid, bytes);
    LastInPage(ps, pid, bytes, pageSize);
  }

  lemma LastInPage(ps: seq<HeapPage>, pid: int, bytes: nat, pageSize: int)
    requires TableValid(ps, pageSize) && FirstPage(ps, pid, bytes) < |ps|
    ensures var own := Served(ps, pid, bytes)[FirstPage(ps, pid, bytes)].blocks;
            own != [] && HEADER <= own[|own| - 1].offset <= pageSize
  {
    var k, n := FirstPage(ps, pid, bytes), SourcePage(ps, pid, bytes);
    var own := Served(ps, pid, bytes)[k].blocks;
    ServedPages(ps, pid, bytes);
    if Home(ps, pid, bytes) {
      ServedWell(ps, pid, bytes, pageSize);
      Inside(own, pageSize, |own| - 1);
    } else {
      Inside(ps[k].blocks, pageSize, |ps[k].blocks| - 1);
      Inside(ps[n].blocks, pageSize, FirstFit(ps[n].blocks, bytes));
      assert own[|own| - 1] == ps[k].blocks[|ps[k].blocks| - 1] ||
             own[|own| - 1] == Rest(SourceBlock(ps, pid, bytes), bytes);
    }
  }

  /** Header writes stay inside the page, and so never reach a payload. */
  lemma HeadersInside(writes: seq<HeaderWrite>, page: HeapPage, pageSize: int)
    requires WellFormed(page.blocks, pageSize) && forall w :: w in writes ==> IsHeaderOf(w, page)
    ensures forall w :: w in writes ==> 0 <= w.offset && w.offset + HEADER <= pageSize
    ensures forall w, i :: w in writes && 0 <= i < |page.blocks| ==>
              w.offset + HEADER <= page.blocks[i].offset || page.blocks[i].End() <= w.offset
  {
    forall w | w in writes
      ensures 0 <= w.offset && w.offset + HEADER <= pageSize
      ensures forall i :: 0 <= i < |page.blocks| ==>
                w.offset + HEADER <= page.blocks[i].offset || page.blocks[i].End() <= w.offset
    {
      var b :| 0 <= b < |page.blocks| && w.offset == page.blocks[b].offset - HEADER;
      Inside(page.blocks, pageSize, b);
      forall i | 0 <= i < |page.blocks|
        ensures w.offset + HEADER <= page.blocks[i].offset || page.blocks[i].End() <= w.offset
      {
        if b < i { Apart(page.blocks, pageSize, b, i); }
        if i < b { Apart(page.blocks, pageSize, i, b); }
      }
    }
  }

  /** The write goes to the header of some block of the page. */
  ghost predicate IsHeaderOf(w: HeaderWrite, page: HeapPage) {
    w.pid == page.pid && w.number == page.number &&
    exists i :: 0 <= i < |page.blocks| && w.offset == page.blocks[i].offset - HEADER
  }

  lemma TakenBlockAt(bs: seq<Block>, pageSize: int, j: nat, bytes: int)
    requires WellFormed(bs, pageSize) && j < |bs| && Fits(bs[j], bytes)
    ensures j < |Taken(bs, j, bytes)| && BlockAt(Taken(bs, j, bytes), Taken(bs, j, bytes)[j].offset) == j
  {
    TakenThenTrimmed(bs, j, bytes);
    BlockAtIs(bs, pageSize, j);
  }
}
