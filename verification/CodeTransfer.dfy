/**
 Program text on its way from the kernel, which stores it page by page, through the memory server to
 the CPU, which fetches one instruction at a time and splits it where it crosses pages.
 */
module CodeTransfer {
  import opened Bytes
  import opened Rounding
  import opened PageTable
  import opened FrameStore
  import opened PageCache
  import opened MemoryServer

  /** Byte `At(page, size) + offset` of the code is byte `offset` of page `page` of the process. */
  ghost predicate CodeStored(p: Pages, pid: int, code: seq<byte>, pageSize: nat) {
    forall page: nat, offset: nat :: offset < pageSize && At(page, pageSize) + offset < |code| ==>
      StoredAt(p, pid, code, pageSize, page, offset)
  }

  ghost predicate StoredAt(p: Pages, pid: int, code: seq<byte>, pageSize: nat, page: nat, offset: nat) {
    && PageKey(pid, page) in p && offset < |p[PageKey(pid, page)]|
    && At(page, pageSize) + offset < |code|
    && p[PageKey(pid, page)][offset] == code[At(page, pageSize) + offset]
  }

  /** `obtenerCantidadDePaginasParaIniciarProceso`. */
  function InitialPages(codeSize: nat, pageSize: nat, stackSize: nat): nat
    requires 0 < pageSize
  {
    CeilDiv(codeSize, pageSize) + stackSize
  }

  /** The first `n` pages of the code are in place. */
  ghost predicate Sent(p: Pages, pid: int, code: seq<byte>, pageSize: nat, n: nat) {
    forall page: nat, offset: nat :: page < n && offset < pageSize && At(page, pageSize) + offset < |code| ==>
      StoredAt(p, pid, code, pageSize, page, offset)
  }

  lemma SentStep(p: Pages, p': Pages, pid: int, code: seq<byte>, pageSize: nat, n: nat, data: seq<byte>)
    requires Sent(p, pid, code, pageSize, n) && PageSized(p, pageSize)
    requires PageKey(pid, n) in p && |data| <= pageSize
    requires p' == p[PageKey(pid, n) := Splice(p[PageKey(pid, n)], 0, data)]
    requires At(n, pageSize) + |data| <= |code| && data == code[At(n, pageSize)..At(n, pageSize) + |data|]
    requires |data| == pageSize || At(n, pageSize) + |data| == |code|
    ensures Sent(p', pid, code, pageSize, n + 1)
  {
    forall page: nat, offset: nat | page < n + 1 && offset < pageSize && At(page, pageSize) + offset < |code|
      ensures StoredAt(p', pid, code, pageSize, page, offset)
    {
      if page == n {
        assert p'[PageKey(pid, n)][0..0 + |data|] == data;
        assert p'[PageKey(pid, n)][offset] == data[offset];
      } else {
        assert StoredAt(p, pid, code, pageSize, page, offset);
      }
    }
  }

  /** All pages but the first `n` of the process are as they were, and no page appears or disappears. */
  ghost predicate OnlyTouches(p: Pages, p': Pages, pid: int, n: nat) {
    p'.Keys == p.Keys && forall k :: k in p && (k.pid != pid || n <= k.page) ==> p'[k] == p[k]
  }

  /** After `i` pages: they are in place, nobody else noticed, and the cache is as warm and as exact as it was. */
  ghost predicate Sending(server: MemoryServer, t0: seq<Frame>, p0: Pages, pid: int, code: seq<byte>, i: nat,
                          warm: bool, exact: bool)
    reads server, server.store, server.store.mem, server.cache
  {
    && server.Consistent() && server.cache.Warm() == warm && server.store.Table() == t0
    && (exact ==> Exact(server.cache.entries, server.cache.counters))
    && OnlyTouches(p0, server.Pages(), pid, i) && Sent(server.Pages(), pid, code, server.store.frameSize, i)
  }

  /** One round of the loop below. If the page is not there nothing happens. */
  method SendPage(server: MemoryServer, pid: int32, code: seq<byte>, i: nat, sent: nat, size: nat,
                  ghost t0: seq<Frame>, ghost p0: Pages, ghost warm: bool, ghost exact: bool)
    returns (ok: bool)
    requires Sending(server, t0, p0, pid, code, i, warm, exact) && 0 <= pid
    requires sent == At(i, server.store.frameSize) && sent + size <= |code| && size <= server.store.frameSize
    requires size == server.store.frameSize || sent + size == |code|
    modifies server.store.mem, server.cache
    ensures ok <==> PageKey(pid, i) in p0
    ensures Sending(server, t0, p0, pid, code, if ok then i + 1 else i, warm, exact)
  {
    ghost var p := server.Pages();
    var data := code[sent..sent + size];
    var reply := server.Write(Chars, pid, i, 0, data);
    ok := reply == Written;
    if ok { SentStep(p, server.Pages(), pid, code, server.store.frameSize, i, data); }
  }

  /** `enviarCodigoDePrograma`: a whole page at a time while more than a page is left, then the rest. */
  method SendCode(server: MemoryServer, pid: int32, code: seq<byte>) returns (ok: bool)
    requires server.Consistent() && 0 <= pid
    modifies server.store.mem, server.cache
    ensures server.Consistent() && server.cache.Warm() == old(server.cache.Warm())
    ensures server.store.Table() == old(server.store.Table())
    ensures Exact(old(server.cache.entries), old(server.cache.counters)) ==>
              Exact(server.cache.entries, server.cache.counters)
    ensures OnlyTouches(old(server.Pages()), server.Pages(), pid, CeilDiv(|code|, server.store.frameSize))
    ensures ok ==> CodeStored(server.Pages(), pid, code, server.store.frameSize)
    ensures ok <==> forall page: nat :: page < CeilDiv(|code|, server.store.frameSize) ==>
                      PageKey(pid, page) in old(server.Pages())
  {
    CeilDivCovers(|code|, server.store.frameSize);
    ok := SendPages(server, pid, code, CeilDiv(|code|, server.store.frameSize), server.store.Table(), server.Pages(),
                    server.cache.Warm(), Exact(server.cache.entries, server.cache.counters));
    if ok { SentAll(server.Pages(), pid, code, server.store.frameSize); }
  }

  method SendPages(server: MemoryServer, pid: int32, code: seq<byte>, pages: nat, ghost t0: seq<Frame>, ghost p0: Pages,
                   ghost warm: bool, ghost exact: bool)
    returns (ok: bool)
    requires Sending(server, t0, p0, pid, code, 0, warm, exact) && 0 <= pid &&
             pages == CeilDiv(|code|, server.store.frameSize)
    modifies server.store.mem, server.cache
    ensures ok ==> Sending(server, t0, p0, pid, code, pages, warm, exact)
    ensures ok ==> forall page: nat :: page < pages ==> PageKey(pid, page) in p0
    ensures !ok ==>
              exists page: nat :: page < pages && PageKey(pid, page) !in p0 &&
                Sending(server, t0, p0, pid, code, page, warm, exact)
  {
    var pageSize := server.store.frameSize;
    var i, left, sent := 0, |code|, 0;
    while i < pages
      invariant 0 <= i <= pages && Sending(server, t0, p0, pid, code, i, warm, exact)
      invariant i < pages ==> sent == At(i, pageSize) && sent + left == |code|
      invariant forall page: nat :: page < i ==> PageKey(pid, page) in p0
    {
      LeftOver(i, pages, pageSize, |code|);
      var size := if left > pageSize then pageSize else left;
      var written := SendPage(server, pid, code, i, sent, size, t0, p0, warm, exact);
      if !written {
        return false;
      }
      if left > pageSize {
        sent, left := sent + size, left - size;
      }
      i := i + 1;
    }
    return true;
  }

  /** Only the last page may be partly filled. */
  lemma LeftOver(i: nat, pages: nat, pageSize: nat, codeSize: nat)
    requires 0 < pageSize && pages == CeilDiv(codeSize, pageSize) && i < pages
    ensures i + 1 < pages ==> At(i, pageSize) + pageSize < codeSize
    ensures At(i, pageSize) < codeSize
  {
    CeilDivCovers(codeSize, pageSize);
    FrameInside(i, pages, pageSize);
    if i + 1 < pages { FrameInside(i + 1, pages, pageSize); }
  }

  lemma SentAll(p: Pages, pid: int, code: seq<byte>, pageSize: nat)
    requires 0 < pageSize && Sent(p, pid, code, pageSize, CeilDiv(|code|, pageSize))
    ensures CodeStored(p, pid, code, pageSize)
  {
    var pages := CeilDiv(|code|, pageSize);
    CeilDivCovers(|code|, pageSize);
    forall page: nat, offset: nat | offset < pageSize && At(page, pageSize) + offset < |code|
      ensures StoredAt(p, pid, code, pageSize, page, offset)
    {
      if pages < page { FrameInside(pages, page, pageSize); }
    }
  }

  /**
   The memory side of admitting a process: its pages and then its code. It asks for `n` pages: as few as hold the code,
   and `stackSize` more. These come last, are marked as stack, and hold none of the code.
   */
  method LoadProgram(server: MemoryServer, pid: int32, code: seq<byte>) returns (started: bool, n: nat)
    requires server.Consistent() && 0 <= pid && OwnsFirst(server.Pages(), pid, 0)
    modifies server.store`kinds, server.store.mem, server.cache
    ensures server.Consistent() && server.cache.Warm() == old(server.cache.Warm())
    ensures Exact(old(server.cache.entries), old(server.cache.counters)) ==>
              Exact(server.cache.entries, server.cache.counters)
    ensures server.stackSize <= n
    ensures |code| <= (n - server.stackSize) * server.store.frameSize < |code| + server.store.frameSize
    ensures started <==> n <= server.Capacity() - |old(server.Pages())|
    ensures started ==> CodeStored(server.Pages(), pid, code, server.store.frameSize)
    ensures started ==> forall page :: PageKey(pid, page) in server.Pages() <==> 0 <= page < n
    ensures forall page: nat {:trigger PageKey(pid, page)} ::
              n - server.stackSize <= page ==> |code| <= page * server.store.frameSize
    ensures started ==>
              PagesOfKind(server.store.Table(), server.store.kinds, pid, Stack) == Range(n - server.stackSize, n)
    ensures started ==>
              PagesOfKind(server.store.Table(), server.store.kinds, pid, Code) == Range(0, n - server.stackSize)
    ensures forall k :: k in old(server.Pages()) ==> k in server.Pages() && server.Pages()[k] == old(server.Pages())[k]
  {
    n := InitialPages(|code|, server.store.frameSize, server.stackSize);
    FewestPages(|code|, server.store.frameSize, server.stackSize);
    started := LoadPages(server, pid, code, n);
    if started { OwnsLastAsStack(server, pid, n); }
  }

  /** The number of pages is the only one that is enough and not too many. */
  lemma OnlyOne(size: nat, pageSize: nat, pages: nat)
    requires 0 < pageSize && size <= pages * pageSize < size + pageSize
    ensures pages == CeilDiv(size, pageSize)
  {
    var q := CeilDiv(size, pageSize);
    CeilDivCovers(size, pageSize);
    AtIsProduct(q, pageSize);
    TimesGrows(q + 1, pages, pageSize);
    TimesGrows(pages + 1, q, pageSize);
    assert (q + 1) * pageSize == q * pageSize + pageSize && (pages + 1) * pageSize == pages * pageSize + pageSize;
  }

  /** The initial pages hold the code and, behind it, the stack; with one page fewer there would be no room for both. */
  lemma FewestPages(size: nat, pageSize: nat, stackSize: nat)
    requires 0 < pageSize
    ensures var pages := InitialPages(size, pageSize, stackSize) - stackSize;
            0 <= pages && size <= pages * pageSize < size + pageSize &&
            (forall page: nat {:trigger page * pageSize} :: pages <= page ==> size <= page * pageSize)
  {
    var pages := CeilDiv(size, pageSize);
    CeilDivCovers(size, pageSize);
    AtIsProduct(pages, pageSize);
    assert InitialPages(size, pageSize, stackSize) == pages + stackSize;
    forall page: nat | pages <= page
      ensures size <= page * pageSize
    {
      TimesGrows(pages, page, pageSize);
    }
  }

  method LoadPages(server: MemoryServer, pid: int32, code: seq<byte>, n: nat) returns (started: bool)
    requires server.Consistent() && 0 <= pid && OwnsFirst(server.Pages(), pid, 0)
    requires CeilDiv(|code|, server.store.frameSize) <= n
    modifies server.store`kinds, server.store.mem, server.cache
    ensures server.Consistent() && server.cache.Warm() == old(server.cache.Warm())
    ensures Exact(old(server.cache.entries), old(server.cache.counters)) ==>
              Exact(server.cache.entries, server.cache.counters)
    ensures started <==> n <= server.Capacity() - |old(server.Pages())|
    ensures started ==> CodeStored(server.Pages(), pid, code, server.store.frameSize)
    ensures started ==> OwnsFirst(server.Pages(), pid, n)
    ensures started ==>
              PagesOfKind(server.store.Table(), server.store.kinds, pid, Stack) == LastPages(n, server.stackSize) &&
              PagesOfKind(server.store.Table(), server.store.kinds, pid, Code)
              == Range(0, n) - LastPages(n, server.stackSize)
    ensures forall k :: k in old(server.Pages()) ==> k in server.Pages() && server.Pages()[k] == old(server.Pages())[k]
  {
    ghost var p0 := server.Pages();
    var reply := server.CreateInitialPages(pid, n);
    if reply != Started {
      return false;
    }
    ghost var p := server.Pages();
    OwnsNew(p0, p, pid, n);
    var sent := SendCode(server, pid, code);
    forall k | k in p0
      ensures k.pid != pid
    {
      assert PageKey(k.pid, k.page) in p0;
    }
    return true;
  }

  lemma OwnsNew(p: Pages, p': Pages, pid: int, n: nat)
    requires OwnsFirst(p, pid, 0) && Extends(p, p', NewKeys(pid, 0, n))
    ensures OwnsFirst(p', pid, n)
  {
    forall page
      ensures PageKey(pid, page) in p' <==> 0 <= page < n
    {
      assert PageKey(pid, page) in p' <==> PageKey(pid, page) in p || PageKey(pid, page) in NewKeys(pid, 0, n);
    }
  }

  /** The pages that are not stack come first. */
  lemma OwnsLastAsStack(server: MemoryServer, pid: int, n: nat)
    requires server.stackSize <= n
    ensures LastPages(n, server.stackSize) == Range(n - server.stackSize, n)
    ensures Range(0, n) - LastPages(n, server.stackSize) == Range(0, n - server.stackSize)
  {
    SameSet(Range(0, n) - LastPages(n, server.stackSize), Range(0, n - server.stackSize));
  }

  // ---------------------------------------------------------------- the CPU side

  /** One request of the CPU: `size` bytes at `offset` of page `page`. */
  datatype Piece = Piece(page: nat, offset: nat, size: nat)

  /** The pieces lie inside their pages and cover `length` bytes from `start` on, in order and without overlap. */
  ghost predicate Tiles(pieces: seq<Piece>, start: nat, length: nat, pageSize: nat) {
    if pieces == [] then length == 0
    else
      var last := pieces[|pieces| - 1];
      && 0 < last.size <= length && last.offset + last.size <= pageSize
      && At(last.page, pageSize) + last.offset + last.size == start + length
      && Tiles(pieces[..|pieces| - 1], start, length - last.size, pageSize)
  }

  /** What a piece reads, while the code is in place. */
  lemma PieceOfCode(p: Pages, pid: int, code: seq<byte>, pageSize: nat, piece: Piece)
    requires CodeStored(p, pid, code, pageSize) && PageSized(p, pageSize)
    requires 0 < piece.size && piece.offset + piece.size <= pageSize
    requires At(piece.page, pageSize) + piece.offset + piece.size <= |code|
    ensures FlatRead(p, pageSize, PageKey(pid, piece.page), piece.offset, piece.size)
         == Data(code[At(piece.page, pageSize) + piece.offset..At(piece.page, pageSize) + piece.offset + piece.size])
  {
    assert StoredAt(p, pid, code, pageSize, piece.page, piece.offset);
    var from := At(piece.page, pageSize) + piece.offset;
    var read := p[PageKey(pid, piece.page)][piece.offset..piece.offset + piece.size];
    var wanted := code[from..from + piece.size];
    forall k: nat | k < piece.size
      ensures read[k] == wanted[k]
    {
      assert StoredAt(p, pid, code, pageSize, piece.page, piece.offset + k);
    }
    assert read == wanted;
  }

  datatype Fetched = Instruction(bytes: seq<byte>) | MemoryException | ServerDown

  /** `n` bytes of the code from `from` on. */
  ghost function Part(code: seq<byte>, from: nat, n: nat): seq<byte>
    requires from + n <= |code|
  {
    if n == 0 then [] else Part(code, from, n - 1) + [code[from + n - 1]]
  }

  lemma {:induction false} PartIsSlice(code: seq<byte>, from: nat, n: nat)
    requires from + n <= |code|
    ensures Part(code, from, n) == code[from..from + n]
  {
    if n == 0 {
    } else {
      PartIsSlice(code, from, n - 1);
      assert code[from..from + n] == code[from..from + n - 1] + [code[from + n - 1]];
    }
  }

  lemma {:induction false} JoinParts(code: seq<byte>, from: nat, n: nat, m: nat)
    requires from + n + m <= |code|
    ensures Part(code, from, n) + Part(code, from + n, m) == Part(code, from, n + m)
  {
    if m == 0 {
      assert Part(code, from, n) + [] == Part(code, from, n);
    } else {
      JoinParts(code, from, n, m - 1);
      assert Part(code, from, n) + Part(code, from + n, m)
          == Part(code, from, n) + Part(code, from + n, m - 1) + [code[from + n + m - 1]];
    }
  }

  /** One request, answered by the memory server. */
  method FetchPiece(server: MemoryServer, pid: int32, piece: Piece, ghost code: seq<byte>)
    returns (result: Fetched)
    requires server.Consistent() && 0 <= pid && 0 < piece.size && piece.offset + piece.size <= server.store.frameSize
    modifies server.cache
    ensures result != ServerDown ==> server.Consistent() && (old(server.cache.Warm()) ==> server.cache.Warm())
    ensures result != ServerDown && Exact(old(server.cache.entries), old(server.cache.counters)) ==>
              Exact(server.cache.entries, server.cache.counters)
    ensures old(server.cache.Warm()) && Exact(old(server.cache.entries), old(server.cache.counters)) ==>
              result != ServerDown
    ensures result.Instruction? ==> |result.bytes| == piece.size
    ensures CodeStored(server.Pages(), pid, code, server.store.frameSize) && result != ServerDown &&
            At(piece.page, server.store.frameSize) + piece.offset + piece.size <= |code| ==>
              result == Instruction(Part(code, At(piece.page, server.store.frameSize) + piece.offset, piece.size))
  {
    ghost var es, cs, free := server.cache.entries, server.cache.counters, server.cache.free;
    var reply := server.Read(pid, piece.page, piece.offset, piece.size);
    if reply == Fault {
      if Exact(es, cs) { FaultOnlyCold(es, cs, free, server.cache.quota, pid); }
      return ServerDown;
    }
    if CodeStored(server.Pages(), pid, code, server.store.frameSize) &&
       At(piece.page, server.store.frameSize) + piece.offset + piece.size <= |code| {
      PieceOfCode(server.Pages(), pid, code, server.store.frameSize, piece);
      PartIsSlice(code, At(piece.page, server.store.frameSize) + piece.offset, piece.size);
    }
    match reply
    case Data(bytes) => result := Instruction(bytes);
    case _ => result := MemoryException;
  }

  /** The first `done` bytes are covered, and the next ones begin at `position` of `page`. */
  ghost predicate Progress(pieces: seq<Piece>, page: nat, position: nat, start: nat, done: nat, length: nat,
                           pageSize: nat)
  {
    && done <= length && Tiles(pieces, start, done, pageSize) && (0 < done < length ==> position == 0)
    && (done < length ==> At(page, pageSize) + position == start + done && position < pageSize)
  }

  lemma Covered(pieces: seq<Piece>, piece: Piece, position: nat, next: nat, start: nat, done: nat, length: nat,
                pageSize: nat)
    returns (more: seq<Piece>)
    requires Progress(pieces, piece.page, position, start, done, length, pageSize) && done < length
    requires piece.offset == position && 0 < piece.size && position + piece.size <= pageSize &&
             done + piece.size <= length
    requires done + piece.size < length ==> next == 0 && position + piece.size == pageSize
    ensures more == pieces + [piece]
    ensures Progress(more, piece.page + 1, next, start, done + piece.size, length, pageSize)
  {
    more := pieces + [piece];
    assert more[..|pieces|] == pieces;
  }

  /** The server is consistent; `warm` and `exact` say what else it was when the fetch began and still is. */
  ghost predicate Steady(server: MemoryServer, warm: bool, exact: bool)
    reads server, server.store, server.store.mem, server.cache
  {
    server.Consistent() && (warm ==> server.cache.Warm()) &&
      (exact ==> Exact(server.cache.entries, server.cache.counters))
  }

  /** The bytes fetched so far and those of the next piece. */
  method FetchNext(server: MemoryServer, pid: int32, piece: Piece, ghost code: seq<byte>, ghost stored: bool,
                   ghost start: nat, ghost done: nat, bytes: seq<byte>, ghost warm: bool, ghost exact: bool)
    returns (result: Fetched)
    requires Steady(server, warm, exact) && 0 <= pid
    requires 0 < piece.size && piece.offset + piece.size <= server.store.frameSize
    requires At(piece.page, server.store.frameSize) + piece.offset == start + done
    requires stored ==> CodeStored(server.Pages(), pid, code, server.store.frameSize)
    requires stored ==> start + done + piece.size <= |code| && bytes == Part(code, start, done)
    modifies server.cache
    ensures result != ServerDown ==> Steady(server, warm, exact)
    ensures warm && exact ==> result != ServerDown
    ensures stored && result != ServerDown ==> result == Instruction(Part(code, start, done + piece.size))
  {
    result := FetchPiece(server, pid, piece, code);
    if result.Instruction? {
      if stored { JoinParts(code, start, done, piece.size); }
      result := Instruction(bytes + result.bytes);
    }
  }

  method FirstPosition(start: nat, pageSize: nat) returns (page: nat, position: nat)
    requires 0 < pageSize
    ensures At(page, pageSize) + position == start && position < pageSize
  {
    Split(start, pageSize);
    AtIsProduct(start / pageSize, pageSize);
    page := start / pageSize;
    position := start - page * pageSize;
  }

  /** The next request, and where in the following page the one after it starts. */
  method NextPiece(page: nat, position: nat, done: nat, length: nat, pageSize: nat) returns (piece: Piece, next: nat)
    requires position < pageSize && done < length && (0 < done ==> position == 0)
    ensures piece.page == page && piece.offset == position
    ensures 0 < piece.size && position + piece.size <= pageSize && done + piece.size <= length
    ensures done + piece.size < length ==> next == 0 && position + piece.size == pageSize
  {
    next := position;
    if length - done > pageSize {
      piece := Piece(page, position, pageSize - position);
      next := 0;
    } else if length <= pageSize && length + position > pageSize {
      piece := Piece(page, position, pageSize - position);
      next := 0;
    } else {
      piece := Piece(page, position, length - done);
    }
  }

  /** One turn of the loop below. */
  method FetchTurn(server: MemoryServer, pid: int32, page: nat, position: nat, start: nat, done: nat, length: nat,
                   bytes: seq<byte>, ghost code: seq<byte>, ghost stored: bool, ghost pieces: seq<Piece>,
                   ghost warm: bool, ghost exact: bool)
    returns (result: Fetched, size: nat, next: nat, ghost more: seq<Piece>)
    requires Steady(server, warm, exact) && 0 <= pid && done < length
    requires Progress(pieces, page, position, start, done, length, server.store.frameSize)
    requires stored ==> CodeStored(server.Pages(), pid, code, server.store.frameSize)
    requires stored ==> start + length <= |code| && bytes == Part(code, start, done)
    modifies server.cache
    ensures result != ServerDown ==> Steady(server, warm, exact)
    ensures warm && exact ==> result != ServerDown
    ensures 0 < size && done + size <= length
    ensures Progress(more, page + 1, next, start, done + size, length, server.store.frameSize)
    ensures stored && result != ServerDown ==> result == Instruction(Part(code, start, done + size))
  {
    var piece;
    piece, next := NextPiece(page, position, done, length, server.store.frameSize);
    size := piece.size;
    more := Covered(pieces, piece, position, next, start, done, length, server.store.frameSize);
    result := FetchNext(server, pid, piece, code, stored, start, done, bytes, warm, exact);
  }

  /**
   `pedirInstruccionAMemoria`. Whatever the page size, the start and the length, it asks for pieces that
   each lie inside one page and together are the instruction; with the code in place it gets the
   instruction back.
   */
  method FetchInstruction(server: MemoryServer, pid: int32, start: nat, length: nat, ghost code: seq<byte>)
    returns (result: Fetched, ghost pieces: seq<Piece>)
    requires server.Consistent() && 0 <= pid
    modifies server.cache
    ensures result != ServerDown ==> server.Consistent()
    ensures old(server.cache.Warm()) && Exact(old(server.cache.entries), old(server.cache.counters)) ==>
              result != ServerDown
    ensures result.Instruction? ==> Tiles(pieces, start, length, server.store.frameSize)
    ensures CodeStored(server.Pages(), pid, code, server.store.frameSize) && start + length <= |code| ==>
              result == Instruction(code[start..start + length]) || result == ServerDown
  {
    ghost var stored := CodeStored(server.Pages(), pid, code, server.store.frameSize) && start + length <= |code|;
    result, pieces := FetchPieces(server, pid, start, length, code, stored, server.cache.Warm(),
                                  Exact(server.cache.entries, server.cache.counters));
    if stored { PartIsSlice(code, start, length); }
  }

  method FetchPieces(server: MemoryServer, pid: int32, start: nat, length: nat, ghost code: seq<byte>,
                     ghost stored: bool,
                     ghost warm: bool, ghost exact: bool)
    returns (result: Fetched, ghost pieces: seq<Piece>)
    requires Steady(server, warm, exact) && 0 <= pid
    requires stored ==> CodeStored(server.Pages(), pid, code, server.store.frameSize) && start + length <= |code|
    modifies server.cache
    ensures result != ServerDown ==> Steady(server, warm, exact)
    ensures warm && exact ==> result != ServerDown
    ensures result.Instruction? ==> Tiles(pieces, start, length, server.store.frameSize)
    ensures stored && result != ServerDown ==> result == Instruction(Part(code, start, length))
  {
    var pageSize := server.store.frameSize;
    var page, position := FirstPosition(start, pageSize);
    var done: nat, bytes := 0, [];
    pieces := [];
    while done < length
      invariant Steady(server, warm, exact)
      invariant Progress(pieces, page, position, start, done, length, pageSize)
      invariant stored ==> bytes == Part(code, start, done)
    {
      var part, size, next;
      part, size, next, pieces :=
        FetchTurn(server, pid, page, position, start, done, length, bytes, code, stored, pieces, warm, exact);
      if !part.Instruction? {
        return part, pieces;
      }
      bytes, done, page, position := part.bytes, done + size, page + 1, next;
    }
    return Instruction(bytes), pieces;
  }

  // ---------------------------------------------------------------- both sides

  /** What the kernel stored is what the CPU fetches. */
  method LoadAndFetch(server: MemoryServer, pid: int32, code: seq<byte>, start: nat, length: nat)
    returns (started: bool, result: Fetched)
    requires server.Consistent() && 0 <= pid && OwnsFirst(server.Pages(), pid, 0) && start + length <= |code|
    modifies server.store`kinds, server.store.mem, server.cache
    ensures started <==> CeilDiv(|code|, server.store.frameSize) + server.stackSize
                         <= server.Capacity() - |old(server.Pages())|
    ensures started ==> result == Instruction(code[start..start + length]) || result == ServerDown
    ensures started && old(server.cache.Warm()) && Exact(old(server.cache.entries), old(server.cache.counters)) ==>
              result == Instruction(code[start..start + length])
  {
    result := MemoryException;
    var n;
    started, n := LoadProgram(server, pid, code);
    OnlyOne(|code|, server.store.frameSize, n - server.stackSize);
    if started {
      ghost var pieces;
      result, pieces := FetchInstruction(server, pid, start, length, code);
    }
  }
}
