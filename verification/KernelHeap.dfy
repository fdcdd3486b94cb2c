/** The kernel's heap as its requests and releases change it. */
module KernelHeap {
  import opened HeapBlocks
  import opened HeapTable
  import opened HeapAddresses

  class KernelHeap {
    const pageSize: int
    var pages: seq<HeapPage>

    ghost predicate Valid()
      reads this
    {
      2 * HEADER <= pageSize && TableValid(pages, pageSize)
    }

    ghost predicate Compacted()
      reads this
    {
      TableCompacted(pages)
    }

    constructor (pageSize: int)
      requires 2 * HEADER <= pageSize
      ensures Valid() && Compacted() && pages == [] && this.pageSize == pageSize
    {
      this.pageSize := pageSize;
      pages := [];
    }

    // -------------------------------------------------------------- searches

    /** `check_existe_pagina_con_espacio`: the number of a page of `pid` with room, or -1. */
    method FindSpace(bytes: int, pid: int) returns (number: int)
      ensures number
              == if FirstPage(pages, pid, bytes) < |pages| then pages[FirstPage(pages, pid, bytes)].number else -1
    {
      var i := 0;
      while i < |pages|
        invariant 0 <= i <= |pages|
        invariant FirstRoom(pages, OfProcess(pid), bytes) == i + FirstRoom(pages[i..], OfProcess(pid), bytes)
      {
        var page := pages[i];
        if page.pid == pid {
          var j := FirstFitIn(page.blocks, bytes);
          if j < |page.blocks| {
            return page.number;
          }
        }
        assert pages[i..][1..] == pages[i + 1..];
        i := i + 1;
      }
      return -1;
    }

    /** The scan over the blocks of one page. */
    method FirstFitIn(bs: seq<Block>, bytes: int) returns (j: nat)
      ensures j == FirstFit(bs, bytes)
    {
      j := 0;
      while j < |bs|
        invariant 0 <= j <= |bs|
        invariant FirstFit(bs, bytes) == j + FirstFit(bs[j..], bytes)
      {
        if !bs[j].used && if bs[j].number < 0 then bytes + HEADER <= bs[j].size else bytes <= bs[j].size {
          return;
        }
        assert bs[j..][1..] == bs[j + 1..];
        j := j + 1;
      }
    }

    /** `buscar_primer_bloque_libre`: takes the first block that fits in the first page with that number. */
    method TakeFirstFree(number: int, bytes: int) returns (n: nat, j: nat)
      requires FirstNumbered(pages, number, bytes) < |pages|
      modifies this
      ensures n == FirstNumbered(old(pages), number, bytes)
      ensures var bs := old(pages)[n].blocks;
              FirstFit(bs, bytes) < |bs| && pages == WithBlocks(old(pages), n, Taken(bs, FirstFit(bs, bytes), bytes)) &&
              j == if bs[FirstFit(bs, bytes)].Special() then |bs| - 1 else FirstFit(bs, bytes)
    {
      n := 0;
      while n < |pages|
        invariant 0 <= n <= |pages| && pages == old(pages)
        invariant FirstRoom(pages, WithNumber(number), bytes) == n + FirstRoom(pages[n..], WithNumber(number), bytes)
      {
        var page := pages[n];
        if page.number == number {
          j := FirstFitIn(page.blocks, bytes);
          if j < |page.blocks| {
            var bs;
            bs, j := TakeBlock(page.blocks, j, bytes);
            pages := pages[n := page.(blocks := bs)];
            return;
          }
        }
        assert pages[n..][1..] == pages[n + 1..];
        n := n + 1;
      }
      assert false;
    }

    /** `ocupar_bloque`, or `crear_nuevo_bloque` and `recalcular_offset_final` for the special block. */
    method TakeBlock(bs: seq<Block>, j: nat, bytes: int) returns (r: seq<Block>, i: nat)
      requires j < |bs|
      ensures r == Taken(bs, j, bytes) && i == if bs[j].Special() then |bs| - 1 else j
    {
      i := j;
      var b := bs[j];
      if b.number < 0 {
        var n := LastNumber(bs);
        var cut := Block(n, bytes, true, b.offset);
        var rest := b.(offset := b.offset + cut.size + HEADER, size := b.size - cut.size - HEADER);
        r := bs[..j] + bs[j + 1..];
        r := r + [cut];
        r := r + [rest];
        i := |bs| - 1;
      } else {
        r := bs[j := b.(used := true)];
      }
    }

    method LastNumber(bs: seq<Block>) returns (n: int)
      ensures n == MaxNumber(bs)
    {
      n := 0;
      var i := 0;
      while i < |bs|
        invariant 0 <= i <= |bs| && n == MaxNumber(bs[..i])
      {
        if bs[i].number > n {
          n := bs[i].number;
        }
        assert bs[..i + 1][..i] == bs[..i];
        i := i + 1;
      }
      assert bs[..i] == bs;
    }

    /** `buscar_pagina`. */
    method FindPage(number: int, pid: int) returns (k: nat)
      requires exists i :: 0 <= i < |pages| && pages[i].number == number && pages[i].pid == pid
      ensures k < |pages| && pages[k].number == number && pages[k].pid == pid
      ensures forall i :: 0 <= i < k ==> !(pages[i].number == number && pages[i].pid == pid)
    {
      k := 0;
      while k < |pages|
        invariant 0 <= k <= |pages|
        invariant forall i :: 0 <= i < k ==> !(pages[i].number == number && pages[i].pid == pid)
      {
        if pages[k].number == number && pages[k].pid == pid {
          return;
        }
        k := k + 1;
      }
      assert false;
    }

    /** `buscar_indice_bloque`, within a page. */
    method IndexOfBlock(bs: seq<Block>, offset: int) returns (i: nat)
      ensures i == BlockAt(bs, offset)
    {
      i := 0;
      while i < |bs|
        invariant 0 <= i <= |bs|
        invariant BlockAt(bs, offset) == i + BlockAt(bs[i..], offset)
      {
        if bs[i].offset == offset {
          return;
        }
        assert bs[i..][1..] == bs[i + 1..];
        i := i + 1;
      }
    }

    /** `calcular_numero_nuevapagina`. */
    method NewPageNumber(pid: int, base: int) returns (n: int)
      ensures n == NextNumber(pages, pid, base)
    {
      n := base;
      var i := 0;
      while i < |pages|
        invariant 0 <= i <= |pages| && n == NextNumber(pages[..i], pid, base)
      {
        if pages[i].number >= n && pages[i].pid == pid {
          n := pages[i].number;
          n := n + 1;
        }
        assert pages[..i + 1][..i] == pages[..i];
        i := i + 1;
      }
      assert pages[..i] == pages;
    }

    // -------------------------------------------------------------- requests

    /**
     The cut of the block that was taken: the requesting process's page is looked up by number and pid, and the
     place for the rest by the offset of the block.
     */
    method Cut(number: int, pid: int, n: nat, j: nat, bytes: int, ghost k: nat) returns (writes: seq<HeaderWrite>)
      requires n < |pages| && j < |pages[n].blocks|
      requires k < |pages| && pages[k].number == number && pages[k].pid == pid
      requires forall i :: 0 <= i < k ==> !(pages[i].number == number && pages[i].pid == pid)
      modifies this
      ensures pages == CutInto(old(pages), k, n, j, bytes)
      ensures var b := old(pages)[n].blocks[j]; var own := old(pages)[k].blocks;
              writes == if b.size > bytes + HEADER && BlockAt(own, b.offset) < |own| then
                          [RestHeader(pid, number, b, bytes)]
                        else []
    {
      writes := [];
      var block := pages[n].blocks[j];
      if block.size > bytes + HEADER {
        var own := FindPage(number, pid);
        var i := IndexOfBlock(pages[own].blocks, block.offset);
        if i < |pages[own].blocks| {
          var rest := Block(0, block.size - bytes - HEADER, false, block.offset + bytes + HEADER);
          pages := pages[n := pages[n].(blocks := pages[n].blocks[j := block.(size := bytes)])];
          var bs := pages[own].blocks;
          bs := bs[..i + 1] + [rest] + bs[i + 1..];
          pages := pages[own := pages[own].(blocks := bs)];
          writes := [HeaderWrite(pid, number, rest.offset - HEADER, rest.size, true)];
        }
      }
    }

    /** `asignar_paginas_heap` when a page of the process has room. */
    method AllocateIn(bytes: int, pid: int, answers: Answers) returns (reply: AllocReply, writes: seq<HeaderWrite>)
      requires Numbered(pages) && 0 <= pid && FirstPage(pages, pid, bytes) < |pages|
      modifies this
      ensures pages == Served(old(pages), pid, bytes) && writes == Headers(old(pages), pid, bytes)
      ensures reply == Answer(old(pages), pid, bytes, answers, pageSize)
    {
      ghost var ps, k := pages, FirstPage(pages, pid, bytes);
      var number := FindSpace(bytes, pid);
      ServedPages(ps, pid, bytes);
      ServedNumbered(ps, pid, bytes);
      var offset, rest := Grant(number, bytes, pid, k);
      OnePage(pages, k);
      reply, writes := WriteHeaders(number, bytes, pid, offset, rest, answers, k);
    }

    /** The headers of the block and of the last one follow that of the rest. */
    method WriteHeaders(number: int, bytes: int, pid: int, offset: int, rest: seq<HeaderWrite>, answers: Answers,
                        ghost k: nat)
      returns (reply: AllocReply, writes: seq<HeaderWrite>)
      requires k < |pages| && pages[k].number == number && pages[k].pid == pid && pages[k].blocks != []
      requires forall i :: 0 <= i < k ==> !(pages[i].number == number && pages[i].pid == pid)
      ensures writes == rest + [HeaderWrite(pid, number, offset - HEADER, bytes, false),
                                LastHeader(pid, number, pages[k].blocks)]
      ensures reply == if (rest == [] || answers.rest) && answers.own && answers.last then
                         Address(number * pageSize + offset)
                       else Rejected
    {
      var last := LastBlock(number, pid, k);
      writes := rest + [HeaderWrite(pid, number, offset - HEADER, bytes, false),
                        HeaderWrite(pid, number, last.offset - HEADER, last.size, true)];
      var accepted := (rest == [] || answers.rest) && answers.own && answers.last;
      reply := if accepted then Address(number * pageSize + offset) else Rejected;
    }

    /** The block is taken and cut. */
    method Grant(number: int, bytes: int, pid: int, ghost k: nat) returns (offset: int, rest: seq<HeaderWrite>)
      requires Numbered(pages) && 0 <= pid && k == FirstPage(pages, pid, bytes) < |pages| && number == pages[k].number
      modifies this
      ensures pages == Served(old(pages), pid, bytes) && offset == SourceBlock(old(pages), pid, bytes).offset
      ensures rest == if Cuts(old(pages), pid, bytes) then
                        [RestHeader(pid, number, SourceBlock(old(pages), pid, bytes), bytes)]
                      else []
    {
      ghost var ps := pages;
      OnePage(ps, k);
      var n, j := TakeFirstFree(number, bytes);
      offset := pages[n].blocks[j].offset;
      TakenBlock(ps, pid, bytes);
      rest := Cut(number, pid, n, j, bytes, k);
    }

    method LastBlock(number: int, pid: int, ghost k: nat) returns (last: Block)
      requires k < |pages| && pages[k].number == number && pages[k].pid == pid && pages[k].blocks != []
      requires forall i :: 0 <= i < k ==> !(pages[i].number == number && pages[i].pid == pid)
      ensures last == pages[k].blocks[|pages[k].blocks| - 1]
    {
      var page := FindPage(number, pid);
      last := pages[page].blocks[|pages[page].blocks| - 1];
    }

    /** `asignar_paginas_heap` when the process needs a page and the memory server has granted one. */
    method AllocateNew(bytes: int, pid: int, base: nat, answers: Answers)
      returns (reply: AllocReply, writes: seq<HeaderWrite>)
      requires Numbered(pages) && 0 <= pid
      modifies this
      ensures pages == old(pages) + [NewPage(old(pages), pid, base, bytes, pageSize)] && Numbered(pages)
      ensures writes == NewHeaders(pid, NextNumber(old(pages), pid, base), bytes, pageSize)
      ensures reply == NewAnswer(NextNumber(old(pages), pid, base), answers, pageSize)
    {
      var number := NewPageNumber(pid, base);
      var special := Block(-1, pageSize - HEADER, false, HEADER);
      var block := Block(0, bytes, true, special.offset);
      special := special.(offset := special.offset + block.size + HEADER, size := special.size - block.size - HEADER);
      NewPageIs(pages, pid, base, bytes, pageSize);
      NewPageNumbered(pages, pid, base, HeapPage(pid, number, [block, special]));
      pages := pages + [HeapPage(pid, number, [block, special])];
      writes := [HeaderWrite(pid, number, block.offset - HEADER, bytes, false),
                 HeaderWrite(pid, number, special.offset - HEADER, special.size, true)];
      if !answers.own && !answers.last {
        reply := Rejected;
      } else if answers.own && answers.last {
        reply := Address(number * pageSize + block.offset);
      } else {
        reply := Silence;
      }
    }

    /**
     `pedido_bloque_memoria` and `asignar_paginas_heap`. A request that with two headers does not fit a page is turned
     down; any other is served from the first page of the process with room, else from a new page. The table stays
     well-formed exactly unless a block of another process is cut or a negative request makes a size negative; the
     address handed out is new to the process exactly if nothing of its own is allocated there.
     */
    method RequestBlock(bytes: int, pid: int, base: nat, pageGranted: bool, answers: Answers)
      returns (reply: AllocReply, writes: seq<HeaderWrite>)
      requires Numbered(pages) && 0 <= pid
      modifies this
      ensures Numbered(pages)
      ensures reply == TooBig <==> bytes + 2 * HEADER > pageSize
      ensures reply == TooBig || reply == NoPage ==> pages == old(pages) && writes == []
      ensures bytes + 2 * HEADER <= pageSize ==>
                if FirstPage(old(pages), pid, bytes) < |old(pages)| then
                  pages == Served(old(pages), pid, bytes) && writes == Headers(old(pages), pid, bytes) &&
                  reply == Answer(old(pages), pid, bytes, answers, pageSize)
                else if !pageGranted then reply == NoPage
                else
                  pages == old(pages) + [NewPage(old(pages), pid, base, bytes, pageSize)] &&
                  writes == NewHeaders(pid, NextNumber(old(pages), pid, base), bytes, pageSize) &&
                  reply == NewAnswer(NextNumber(old(pages), pid, base), answers, pageSize)
      ensures 0 <= bytes && old(Valid()) && reply.Address? ==>
                (Unclaimed(old(pages), pid, reply.pointer, bytes, pageSize) <==> GivesFresh(old(pages), pid, bytes))
      ensures old(Valid()) ==> (Valid() <==> !Spoils(old(pages), pid, bytes, pageSize, pageGranted))
      ensures old(Valid()) && old(Compacted()) && Valid() ==> Compacted()
      ensures 0 <= bytes && old(Valid()) ==> forall w :: w in writes ==> 0 <= w.offset && w.offset + HEADER <= pageSize
      ensures bytes + 10 <= pageSize && HasRoom(old(pages), pid, bytes) ==>
                |pages| == |old(pages)| && 2 <= |writes| <= 3 &&
                (reply.Address? <==> (|writes| == 3 ==> answers.rest) && answers.own && answers.last) &&
                (!reply.Address? ==> reply == Rejected)
      ensures bytes + 10 <= pageSize && !HasRoom(old(pages), pid, bytes) && pageGranted ==>
                |pages| == |old(pages)| + 1 && (reply.Address? <==> answers.own && answers.last) &&
                (reply == Rejected <==> !answers.own && !answers.last) &&
                (reply.Address? || reply == Rejected || reply == Silence)
      ensures reply == NoPage <==> bytes + 10 <= pageSize && !HasRoom(old(pages), pid, bytes) && !pageGranted
    {
      ghost var ps, p := pages, if FirstPage(pages, pid, bytes) < |pages| then Pointer(pages, pid, bytes, pageSize)
                                else NextNumber(pages, pid, base) * pageSize + HEADER;
      RoomIff(ps, pid, bytes);
      if FirstPage(ps, pid, bytes) < |ps| { AnswerTells(ps, pid, bytes, answers, pageSize); }
      NewAnswerTells(NextNumber(ps, pid, base), answers, pageSize);
      reply, writes := PlaceBlock(bytes, pid, base, pageGranted, answers);
      if TableValid(ps, pageSize) && reply != TooBig {
        PlacedWell(ps, pid, base, bytes);
        if 0 <= bytes { FreshIff(ps, pid, base, bytes, p, pageSize); }
      }
    }

    /** What placing a block makes of the table. */
    lemma PlacedWell(ps: seq<HeapPage>, pid: int, base: nat, bytes: int)
      requires TableValid(ps, pageSize) && 0 <= pid && bytes + 2 * HEADER <= pageSize
      ensures FirstPage(ps, pid, bytes) < |ps| ==>
                (TableValid(Served(ps, pid, bytes), pageSize) <==> !Spoils(ps, pid, bytes, pageSize, true)) &&
                (TableCompacted(ps) && !Spoils(ps, pid, bytes, pageSize, true) ==>
                 TableCompacted(Served(ps, pid, bytes))) &&
                (0 <= bytes ==>
                 forall w :: w in Headers(ps, pid, bytes) ==> 0 <= w.offset && w.offset + HEADER <= pageSize)
      ensures FirstPage(ps, pid, bytes) == |ps| ==>
                var t := ps + [NewPage(ps, pid, base, bytes, pageSize)];
                (TableValid(t, pageSize) <==> 0 <= bytes) && (TableCompacted(ps) ==> TableCompacted(t)) &&
                (0 <= bytes ==>
                 forall w :: w in NewHeaders(pid, NextNumber(ps, pid, base), bytes, pageSize) ==>
                               0 <= w.offset && w.offset + HEADER <= pageSize)
    {
      if FirstPage(ps, pid, bytes) < |ps| {
        ServedWell(ps, pid, bytes, pageSize);
        if 0 <= bytes { HeadersInPage(ps, pid, bytes, pageSize); }
      } else {
        NewPageWell(ps, pid, base, bytes, pageSize);
      }
    }

    method PlaceBlock(bytes: int, pid: int, base: nat, pageGranted: bool, answers: Answers)
      returns (reply: AllocReply, writes: seq<HeaderWrite>)
      requires Numbered(pages) && 0 <= pid
      modifies this
      ensures Numbered(pages)
      ensures reply == TooBig <==> bytes + 2 * HEADER > pageSize
      ensures reply == TooBig || reply == NoPage ==> pages == old(pages) && writes == []
      ensures bytes + 2 * HEADER <= pageSize ==>
                if FirstPage(old(pages), pid, bytes) < |old(pages)| then
                  pages == Served(old(pages), pid, bytes) && writes == Headers(old(pages), pid, bytes) &&
                  reply == Answer(old(pages), pid, bytes, answers, pageSize)
                else if !pageGranted then reply == NoPage
                else
                  pages == old(pages) + [NewPage(old(pages), pid, base, bytes, pageSize)] &&
                  writes == NewHeaders(pid, NextNumber(old(pages), pid, base), bytes, pageSize) &&
                  reply == NewAnswer(NextNumber(old(pages), pid, base), answers, pageSize)
    {
      writes := [];
      if bytes + 2 * HEADER > pageSize {
        return TooBig, [];
      }
      var number := FindSpace(bytes, pid);
      if number >= 0 {
        ServedNumbered(pages, pid, bytes);
        reply, writes := AllocateIn(bytes, pid, answers);
      } else if pageGranted {
        reply, writes := AllocateNew(bytes, pid, base, answers);
      } else {
        return NoPage, [];
      }
    }

    // -------------------------------------------------------------- releases

    /**
     `compactar`: merges the first two adjacent free blocks and starts over, until there are none or memory takes a
     header no more; `accepted` is how many it takes. A page left with one block becomes special again and is offered
     back to the memory server.
     */
    method Compact(k: nat, accepted: nat, released: bool) returns (merges: nat, writes: seq<HeaderWrite>)
      requires Numbered(pages) && k < |pages| && 0 <= pages[k].pid && pages[k].blocks != []
      modifies this
      ensures pages == Compacting(old(pages), k, accepted, released)
      ensures merges == |old(pages)[k].blocks| - |MergedTimes(old(pages)[k].blocks, accepted)|
      ensures writes == MergeHeaders(old(pages)[k], accepted)
      decreases |pages[k].blocks|
    {
      var bs := pages[k].blocks;
      if |bs| > 1 {
        var i := AdjacentFree(bs);
        if i + 1 == |bs| {
          Stopped(pages, k, accepted, released);
          return 0, [];
        }
        if accepted == 0 {
          Stopped(pages, k, accepted, released);
          return 0, [];
        }
        OneMerge(pages, k, accepted, released);
        var write := MergePair(k, i);
        merges, writes := Compact(k, accepted - 1, released);
        return 1 + merges, [write] + writes;
      }
      Single(pages, k, accepted, released);
      Restart(k, released);
      return 0, [];
    }

    /** The one block that is left becomes special again, and the page is offered back. */
    method Restart(k: nat, released: bool)
      requires Numbered(pages) && k < |pages| && 0 <= pages[k].pid && |pages[k].blocks| == 1
      modifies this
      ensures pages == if released then old(pages)[..k] + old(pages)[k + 1..]
                       else WithBlocks(old(pages), k, [old(pages)[k].blocks[0].(number := -1)])
    {
      pages := pages[k := pages[k].(blocks := [pages[k].blocks[0].(number := -1)])];
      NamesNumbered(old(pages), pages);
      OfferBack(k, released);
    }

    /** One merge, and the header it writes. */
    method MergePair(k: nat, i: nat) returns (write: HeaderWrite)
      requires Numbered(pages) && k < |pages| && i + 1 < |pages[k].blocks|
      modifies this
      ensures pages == WithBlocks(old(pages), k, MergedAt(old(pages)[k].blocks, i)) && Numbered(pages)
      ensures write == HeaderWrite(old(pages)[k].pid, old(pages)[k].number, old(pages)[k].blocks[i].offset - HEADER,
                                   MergedAt(old(pages)[k].blocks, i)[i].size, true)
    {
      var bs := pages[k].blocks;
      var size := bs[i].size + bs[i + 1].size + HEADER;
      write := HeaderWrite(pages[k].pid, pages[k].number, bs[i].offset - HEADER, size, true);
      pages := pages[k := pages[k].(blocks := bs[..i] + [bs[i].(size := size)] + bs[i + 2..])];
      NamesNumbered(old(pages), pages);
    }

    method AdjacentFree(bs: seq<Block>) returns (i: nat)
      requires bs != []
      ensures i == FirstPair(bs)
    {
      i := 0;
      var j := 1;
      while j < |bs|
        invariant 1 <= j == i + 1 <= |bs| && FirstPair(bs) == i + FirstPair(bs[i..])
      {
        if !bs[i].used && !bs[j].used {
          return;
        }
        assert bs[i..][1..] == bs[j..];
        i, j := i + 1, j + 1;
      }
    }

    /** `chekear_paginas_libres` and `borrar_pagina_en_kernel`. */
    method OfferBack(k: nat, released: bool)
      requires Numbered(pages) && k < |pages| && 0 <= pages[k].pid
      modifies this
      ensures pages == if |old(pages)[k].blocks| == 1 && released then old(pages)[..k] + old(pages)[k + 1..]
                       else old(pages)
    {
      if |pages[k].blocks| == 1 && released {
        OnePage(pages, k);
        var i := FindPage(pages[k].number, pages[k].pid);
        pages := pages[..i] + pages[i + 1..];
      }
    }

    /**
     `liberar_bloque_heap`. Memory takes the first `accepted` headers: that of the block and those of the merges.
     Without the first the block is free all the same, but the caller is told otherwise and nothing is compacted.
     */
    method FreeBlock(pointer: nat, pid: int, accepted: nat, released: bool) returns (ok: bool, writes: seq<HeaderWrite>)
      requires Numbered(pages) && 0 < pageSize && 0 <= pid
      modifies this
      ensures var number, offset := pointer / pageSize, pointer % pageSize; var ps := old(pages);
              (ok <==> Frees(ps, pid, number, offset) && 0 < accepted) &&
              (!Frees(ps, pid, number, offset) ==> pages == ps && writes == []) &&
              (Frees(ps, pid, number, offset) && accepted == 0 ==>
               pages == Marked(ps, pid, number, offset) && writes == []) &&
              (ok ==>
                 pages == Compacting(Marked(ps, pid, number, offset), PageOf(ps, pid, number),
                                     accepted - 1, released) &&
                 writes == FreeHeaders(ps, pid, number, offset, accepted))
      ensures ok <==> 0 < accepted && HasBlock(old(pages), pid, pointer / pageSize, pointer % pageSize)
      ensures Numbered(pages) && (old(Valid()) ==> Valid())
      ensures ok && old(Valid()) && old(Compacted()) ==>
                (Compacted() <==> MergesAfter(old(pages), pid, pointer / pageSize, pointer % pageSize) < accepted)
    {
      FreesIff(pages, pid, pointer / pageSize, pointer % pageSize);
      ok, writes := FreeAt(pointer / pageSize, pointer % pageSize, pid, accepted, released);
      ReleasedNumbered(old(pages), pid, pointer / pageSize, pointer % pageSize, accepted, released);
      if old(Valid()) {
        FreeWell(old(pages), pid, pointer / pageSize, pointer % pageSize, accepted, released, pageSize);
      }
    }

    method FreeAt(number: int, offset: int, pid: int, accepted: nat, released: bool)
      returns (ok: bool, writes: seq<HeaderWrite>)
      requires Numbered(pages) && 0 <= pid
      modifies this
      ensures ok <==> Frees(old(pages), pid, number, offset) && 0 < accepted
      ensures pages == ReleasedTable(old(pages), pid, number, offset, accepted, released)
      ensures writes == ReleasedHeaders(old(pages), pid, number, offset, accepted)
    {
      var found, k, size := MarkFree(number, offset, pid);
      if !found || accepted == 0 {
        return false, [];
      }
      var merges;
      merges, writes := Compact(k, accepted - 1, released);
      return true, [HeaderWrite(pid, number, offset - HEADER, size, true)] + writes;
    }

    /** The block is marked free, whatever comes of its header. */
    method MarkFree(number: int, offset: int, pid: int) returns (found: bool, k: nat, size: int)
      requires Numbered(pages) && 0 <= pid
      modifies this
      ensures Numbered(pages) && (found <==> Frees(old(pages), pid, number, offset))
      ensures !found ==> pages == old(pages)
      ensures found ==>
                k == PageOf(old(pages), pid, number) && pages == Marked(old(pages), pid, number, offset) &&
                pages[k].pid == pid && pages[k].blocks != [] &&
                size == old(pages)[k].blocks[BlockAt(old(pages)[k].blocks, offset)].size
    {
      var j;
      found, k, j := FindBlock(number, offset, pid);
      size := 0;
      if found {
        var block := pages[k].blocks[j];
        size := block.size;
        pages := pages[k := pages[k].(blocks := pages[k].blocks[j := block.(used := false)])];
        NamesNumbered(old(pages), pages);
      }
    }

    /** The search of `liberar_bloque_heap`. */
    method FindBlock(number: int, offset: int, pid: int) returns (found: bool, k: nat, j: nat)
      requires Numbered(pages) && 0 <= pid
      ensures found <==> Frees(pages, pid, number, offset)
      ensures found ==> k == PageOf(pages, pid, number) && j == BlockAt(pages[k].blocks, offset)
    {
      k, j := 0, 0;
      while k < |pages|
        invariant 0 <= k <= |pages|
        invariant PageOf(pages, pid, number) < k ==> !Frees(pages, pid, number, offset)
      {
        if pages[k].pid == pid && pages[k].number == number {
          PageOfIs(pages, k);
          j := IndexOfBlock(pages[k].blocks, offset);
          if j < |pages[k].blocks| {
            return true, k, j;
          }
        }
        k := k + 1;
      }
      return false, 0, 0;
    }

    /** `liberar_paginas`, when a process ends: its pages stay in the table as blank pages of nobody. */
    method GiveBack(pid: int)
      requires 0 <= pid
      modifies this
      ensures pages == GivenBack(old(pages), pid, pageSize)
      ensures |pages| == |old(pages)| && forall m :: 0 <= m < |pages| ==> pages[m].pid != pid
      ensures forall m :: 0 <= m < |pages| && old(pages)[m].pid != pid ==> pages[m] == old(pages)[m]
      ensures forall m :: 0 <= m < |pages| && old(pages)[m].pid == pid ==>
                pages[m] == HeapPage(-1, -1, [Block(-1, pageSize - 5, false, 5)])
      ensures old(Numbered(pages)) ==> Numbered(pages)
      ensures old(Valid()) ==> Valid() && (old(Compacted()) ==> Compacted())
    {
      var i := 0;
      while i < |pages|
        invariant 0 <= i <= |pages| == |old(pages)|
        invariant forall m :: 0 <= m < i ==> pages[m] == GivenBackPage(old(pages)[m], pid, pageSize)
        invariant forall m :: i <= m < |pages| ==> pages[m] == old(pages)[m]
      {
        if pages[i].pid == pid {
          pages := pages[i := HeapPage(-1, -1, [Block(-1, pageSize - HEADER, false, HEADER)])];
        }
        i := i + 1;
      }
    }
  }
}
