/** What processes hold of the heap over whole runs: every address handed out to them and not freed since. */
module HeapHoldings {
  import opened Rounding
  import opened HeapBlocks
  import opened HeapTable
  import opened HeapAddresses
  import opened KernelHeap

  /** By process and address: how many bytes were asked for. */
  type Held = map<(int, int), int>

  /** No two allocations of one process share an address or a byte. */
  ghost predicate AllApart(held: Held) {
    forall k, l :: k in held && l in held && k != l && k.0 == l.0 ==> !Clash(k.1, held[k], l.1, held[l])
  }

  // ---------------------------------------------------------------- what lives in the pages of a process

  /** The allocations that live in the page of `pid` with that number. */
  function LiveAt(ps: seq<HeapPage>, pid: int, number: int): set<(int, int)> {
    if ps == [] then {}
    else LiveIn(ps[0], pid, number) + LiveAt(ps[1..], pid, number)
  }

  function LiveIn(page: HeapPage, pid: int, number: int): set<(int, int)> {
    if page.pid == pid && page.number == number then Live(page.blocks) else {}
  }

  lemma {:induction false} LiveAtConcat(a: seq<HeapPage>, b: seq<HeapPage>, pid: int, number: int)
    ensures LiveAt(a + b, pid, number) == LiveAt(a, pid, number) + LiveAt(b, pid, number)
  {
    if a == [] {
      assert a + b == b;
    } else {
      assert (a + b)[1..] == a[1..] + b;
      LiveAtConcat(a[1..], b, pid, number);
    }
  }

  lemma LiveAtOne(page: HeapPage, pid: int, number: int)
    ensures LiveAt([page], pid, number) == LiveIn(page, pid, number)
  {
    assert [page][1..] == [];
  }

  lemma {:induction false} LiveAtIs(ps: seq<HeapPage>, pid: int, number: int, a: (int, int))
    requires a in LiveAt(ps, pid, number)
    ensures exists i :: 0 <= i < |ps| && ps[i].pid == pid && ps[i].number == number && a in Live(ps[i].blocks)
  {
    if a in LiveIn(ps[0], pid, number) {
    } else {
      LiveAtIs(ps[1..], pid, number, a);
      var rest := ps[1..];
      var i :| 0 <= i < |rest| && rest[i].pid == pid && rest[i].number == number && a in Live(rest[i].blocks);
      assert ps[i + 1] == rest[i];
    }
  }

  /** What lives beside page `k`. */
  function Beside(ps: seq<HeapPage>, k: nat, pid: int, number: int): set<(int, int)>
    requires k < |ps|
  {
    LiveAt(ps[..k], pid, number) + LiveAt(ps[k + 1..], pid, number)
  }

  lemma LiveAtAround(ps: seq<HeapPage>, k: nat, page: HeapPage, pid: int, number: int)
    requires k < |ps|
    ensures LiveAt(ps[k := page], pid, number) == Beside(ps, k, pid, number) + LiveIn(page, pid, number)
    ensures LiveAt(ps[..k] + ps[k + 1..], pid, number) == Beside(ps, k, pid, number)
  {
    assert ps[k := page] == ps[..k] + [page] + ps[k + 1..];
    LiveAtConcat(ps[..k] + [page], ps[k + 1..], pid, number);
    LiveAtConcat(ps[..k], [page], pid, number);
    LiveAtConcat(ps[..k], ps[k + 1..], pid, number);
    LiveAtOne(page, pid, number);
  }

  // ---------------------------------------------------------------- what the pages say about holdings

  /** A block of the process, at least as long, is allocated at that address. */
  ghost predicate Backs(ps: seq<HeapPage>, pid: int, pointer: int, bytes: int, pageSize: int)
    requires 0 < pageSize
  {
    && 0 <= pid && 0 <= pointer && 0 <= bytes
    && exists size :: bytes <= size && (pointer % pageSize, size) in LiveAt(ps, pid, pointer / pageSize)
  }

  ghost predicate Backed(held: Held, ps: seq<HeapPage>, pageSize: int)
    requires 0 < pageSize
  {
    forall k :: k in held ==> Backs(ps, k.0, k.1, held[k], pageSize)
  }

  lemma Parts(pointer: int, pageSize: int)
    requires 0 < pageSize
    ensures pointer == AddressOf(pointer / pageSize, pointer % pageSize, pageSize)
  {
  }

  /** The block behind an allocation. */
  lemma BackingBlock(ps: seq<HeapPage>, pid: int, pointer: int, bytes: int, pageSize: int) returns (i: nat, j: nat)
    requires 0 < pageSize && TableValid(ps, pageSize) && Backs(ps, pid, pointer, bytes, pageSize)
    ensures i < |ps| && ps[i].pid == pid && j < |ps[i].blocks| && ps[i].blocks[j].used && bytes <= ps[i].blocks[j].size
    ensures pointer == AddressOf(ps[i].number, ps[i].blocks[j].offset, pageSize)
    ensures HEADER <= ps[i].blocks[j].offset && ps[i].blocks[j].End() <= pageSize
  {
    var number, offset := pointer / pageSize, pointer % pageSize;
    var size :| bytes <= size && (offset, size) in LiveAt(ps, pid, number);
    Parts(pointer, pageSize);
    i, j := LiveBlock(ps, pid, number, offset, size);
    Inside(ps[i].blocks, pageSize, j);
  }

  lemma LiveBlock(ps: seq<HeapPage>, pid: int, number: int, offset: int, size: int) returns (i: nat, j: nat)
    requires (offset, size) in LiveAt(ps, pid, number)
    ensures i < |ps| && ps[i].pid == pid && ps[i].number == number
    ensures j < |ps[i].blocks| && ps[i].blocks[j].used
    ensures ps[i].blocks[j].offset == offset && ps[i].blocks[j].size == size
  {
    LiveAtIs(ps, pid, number, (offset, size));
    i :| 0 <= i < |ps| && ps[i].pid == pid && ps[i].number == number && (offset, size) in Live(ps[i].blocks);
    LiveIs(ps[i].blocks, (offset, size));
    j :| 0 <= j < |ps[i].blocks| && ps[i].blocks[j].used &&
         (offset, size) == (ps[i].blocks[j].offset, ps[i].blocks[j].size);
  }

  /** Allocations with blocks of their own behind them are apart. */
  lemma BackedApart(held: Held, ps: seq<HeapPage>, pageSize: int)
    requires 0 < pageSize && TableValid(ps, pageSize) && Backed(held, ps, pageSize)
    ensures AllApart(held)
  {
    forall k, l | k in held && l in held && k != l && k.0 == l.0
      ensures !Clash(k.1, held[k], l.1, held[l])
    {
      TwoApart(ps, k.0, k.1, held[k], l.1, held[l], pageSize);
    }
  }

  lemma TwoApart(ps: seq<HeapPage>, pid: int, a: int, n: int, b: int, m: int, pageSize: int)
    requires 0 < pageSize && TableValid(ps, pageSize) && a != b
    requires Backs(ps, pid, a, n, pageSize) && Backs(ps, pid, b, m, pageSize)
    ensures !Clash(a, n, b, m)
  {
    var i, j := BackingBlock(ps, pid, a, n, pageSize);
    var k, l := BackingBlock(ps, pid, b, m, pageSize);
    var x, y := ps[i].blocks[j], ps[k].blocks[l];
    if i != k {
      assert !SamePage(ps[if i < k then i else k], ps[if i < k then k else i]);
      OtherPages(ps[i].number, ps[k].number, pageSize, x.offset, x.size, y.offset, y.size);
    } else if j < l {
      Apart(ps[i].blocks, pageSize, j, l);
    } else {
      Apart(ps[i].blocks, pageSize, l, j);
    }
  }

  /** Nothing handed out is lost while the allocations in the pages stay. */
  lemma StillBacked(held: Held, ps: seq<HeapPage>, t: seq<HeapPage>, pageSize: int)
    requires 0 < pageSize && Backed(held, ps, pageSize)
    requires forall k :: k in held ==> LiveAt(ps, k.0, k.1 / pageSize) <= LiveAt(t, k.0, k.1 / pageSize)
    ensures Backed(held, t, pageSize)
  {
    forall k | k in held
      ensures Backs(t, k.0, k.1, held[k], pageSize)
    {
      assert Backs(ps, k.0, k.1, held[k], pageSize);
      var size :| held[k] <= size && (k.1 % pageSize, size) in LiveAt(ps, k.0, k.1 / pageSize);
      assert (k.1 % pageSize, size) in LiveAt(t, k.0, k.1 / pageSize);
    }
  }

  // ---------------------------------------------------------------- what the operations do to them

  /** A request served at home allocates its block and keeps all others. */
  lemma ServedLive(ps: seq<HeapPage>, pid: int, bytes: nat, pageSize: int, q: int, m: int)
    requires TableValid(ps, pageSize) && FirstPage(ps, pid, bytes) < |ps| && Home(ps, pid, bytes)
    ensures LiveAt(ps, q, m) <= LiveAt(Served(ps, pid, bytes), q, m)
    ensures var k, b := FirstPage(ps, pid, bytes), SourceBlock(ps, pid, bytes);
            (b.offset, GrantedSize(b, bytes)) in LiveAt(Served(ps, pid, bytes), pid, ps[k].number)
  {
    var k := FirstPage(ps, pid, bytes);
    var bs, j := ps[k].blocks, FirstFit(ps[k].blocks, bytes);
    var page := ps[k].(blocks := Granted(bs, j, bytes));
    ServedAtHome(ps, pid, bytes, pageSize);
    GrantedLive(bs, j, bytes);
    LiveAtAround(ps, k, page, q, m);
    LiveAtAround(ps, k, ps[k], q, m);
    LiveAtAround(ps, k, page, pid, ps[k].number);
    assert ps[k := ps[k]] == ps;
  }

  lemma GrownLive(ps: seq<HeapPage>, pid: int, base: nat, bytes: nat, pageSize: int, q: int, m: int)
    ensures var page := NewPage(ps, pid, base, bytes, pageSize);
            LiveAt(ps, q, m) <= LiveAt(ps + [page], q, m) && (HEADER, bytes) in LiveAt(ps + [page], pid, page.number)
  {
    var page := NewPage(ps, pid, base, bytes, pageSize);
    LiveAtConcat(ps, [page], q, m);
    LiveAtConcat(ps, [page], pid, page.number);
    LiveAtOne(page, q, m);
    LiveAtOne(page, pid, page.number);
    NewPageIs(ps, pid, base, bytes, pageSize);
  }

  /** A release ends at most the allocation it names. */
  lemma ReleasedLive(ps: seq<HeapPage>, pid: int, number: int, offset: int, accepted: nat, released: bool,
                     pageSize: int, q: int, m: int, a: (int, int))
    requires TableValid(ps, pageSize) && a in LiveAt(ps, q, m) && !(q == pid && m == number && a.0 == offset)
    ensures a in LiveAt(ReleasedTable(ps, pid, number, offset, accepted, released), q, m)
  {
    if Frees(ps, pid, number, offset) {
      var k := PageOf(ps, pid, number);
      var bs, j := ps[k].blocks, BlockAt(ps[k].blocks, offset);
      var t := Marked(ps, pid, number, offset);
      FreedLive(bs, pageSize, j);
      LiveAtAround(ps, k, ps[k], q, m);
      LiveAtAround(ps, k, t[k], q, m);
      assert ps[k := ps[k]] == ps && ps[k := t[k]] == t;
      assert a in LiveAt(t, q, m);
      if 0 < accepted {
        FreedWell(bs, j, pageSize);
        CompactedLive(t, k, accepted - 1, released, pageSize, q, m);
      }
    }
  }

  lemma CompactedLive(ps: seq<HeapPage>, k: nat, n: nat, released: bool, pageSize: int, q: int, m: int)
    requires k < |ps| && WellFormed(ps[k].blocks, pageSize) && (|ps[k].blocks| == 1 ==> !ps[k].blocks[0].used)
    ensures LiveAt(Compacting(ps, k, n, released), q, m) == LiveAt(ps, q, m)
  {
    var r := SettledPartly(ps[k].blocks, n);
    SettledPartlyWell(ps[k].blocks, pageSize, n);
    LiveAtAround(ps, k, ps[k], q, m);
    LiveAtAround(ps, k, ps[k].(blocks := r), q, m);
    assert ps[k := ps[k]] == ps;
    if |r| == 1 {
      SingleIsFree(ps[k].blocks, n);
      assert r == [r[0]] && !r[0].used;
      LiveOne(r[0]);
    }
  }

  lemma {:induction false} GivenBackLive(ps: seq<HeapPage>, pid: int, pageSize: int, q: int, m: int)
    requires q != pid && 0 <= q
    ensures LiveAt(GivenBack(ps, pid, pageSize), q, m) == LiveAt(ps, q, m)
  {
    if ps == [] {
    } else {
      assert GivenBack(ps, pid, pageSize)[1..] == GivenBack(ps[1..], pid, pageSize);
      GivenBackLive(ps[1..], pid, pageSize, q, m);
    }
  }

  // ---------------------------------------------------------------- runs

  datatype Request =
    | Alloc(pid: int, bytes: int, base: nat, granted: bool, answers: Answers)
    | Free(pid: int, pointer: nat, accepted: nat, released: bool)
    | End(pid: int)

  datatype Reply = Told(reply: AllocReply) | Released(ok: bool) | Ended

  /** What is held after a request: an address handed out, until it is given to be freed or its process ends. */
  function HeldAfter(held: Held, req: Request, reply: Reply): Held {
    match req
    case Alloc(pid, bytes, _, _, _) =>
      if reply.Told? && reply.reply.Address? then held[(pid, reply.reply.pointer) := bytes] else held
    case Free(pid, pointer, _, _) => held - {(pid, pointer)}
    case End(pid) => map k | k in held && k.0 != pid :: held[k]
  }

  /** What is held after a run that began with an empty table. */
  function Holding(reqs: seq<Request>, replies: seq<Reply>): Held
    requires |reqs| == |replies|
  {
    if reqs == [] then map[]
    else
      var last := |reqs| - 1;
      HeldAfter(Holding(reqs[..last], replies[..last]), reqs[last], replies[last])
  }

  lemma HoldingNext(reqs: seq<Request>, replies: seq<Reply>, i: nat, reply: Reply)
    requires i == |replies| < |reqs|
    ensures Holding(reqs[..i + 1], replies + [reply]) == HeldAfter(Holding(reqs[..i], replies), reqs[i], reply)
  {
    assert reqs[..i + 1][..i] == reqs[..i] && (replies + [reply])[..i] == replies;
  }

  /** A request is served from a page of its process, or from a new one. */
  predicate AtHome(ps: seq<HeapPage>, req: Request) {
    req.Alloc? ==> 0 <= req.bytes && (FirstPage(ps, req.pid, req.bytes) < |ps| ==> Home(ps, req.pid, req.bytes))
  }

  /** A new allocation has a block behind it, and so have the old ones still. */
  lemma AllocBacked(held: Held, ps: seq<HeapPage>, t: seq<HeapPage>, pid: int, pointer: int, bytes: int, number: int,
                    offset: int, size: int, pageSize: int)
    requires 0 < pageSize && Backed(held, ps, pageSize) && 0 <= pid && 0 <= bytes <= size
    requires 0 <= number && 0 <= offset < pageSize && pointer == number * pageSize + offset
    requires (offset, size) in LiveAt(t, pid, number) && forall q, m :: LiveAt(ps, q, m) <= LiveAt(t, q, m)
    ensures Backed(held[(pid, pointer) := bytes], t, pageSize) && Backed(held, t, pageSize)
  {
    QuotientUnique(number, pageSize, offset, pointer);
    StillBacked(held, ps, t, pageSize);
    assert Backs(t, pid, pointer, bytes, pageSize);
  }

  method Allocate(heap: KernelHeap, ghost held: Held, pid: int, bytes: int, base: nat, granted: bool, answers: Answers)
    returns (reply: AllocReply)
    requires heap.Valid() && Backed(held, heap.pages, heap.pageSize) && 0 <= pid
    requires AtHome(heap.pages, Alloc(pid, bytes, base, granted, answers))
    modifies heap
    ensures heap.Valid()
    ensures Backed(HeldAfter(held, Alloc(pid, bytes, base, granted, answers), Told(reply)), heap.pages, heap.pageSize)
    ensures reply.Address? ==> (pid, reply.pointer) !in held
  {
    ghost var ps, size := heap.pages, heap.pageSize;
    var writes;
    reply, writes := heap.RequestBlock(bytes, pid, base, granted, answers);
    RequestBacked(held, ps, heap.pages, pid, bytes, base, granted, answers, reply, size);
    if reply.Address? && (pid, reply.pointer) in held {
      NotUnclaimed(ps, pid, reply.pointer, held[(pid, reply.pointer)], bytes, size);
    }
  }

  /** The table and the reply that a request served at home ends with. */
  predicate Answered(ps: seq<HeapPage>, t: seq<HeapPage>, pid: int, bytes: int, base: nat, granted: bool,
                     reply: AllocReply, pageSize: int)
  {
    if bytes + 2 * HEADER > pageSize then t == ps && !reply.Address?
    else if FirstPage(ps, pid, bytes) < |ps| then
      Home(ps, pid, bytes) && t == Served(ps, pid, bytes) &&
      (reply.Address? ==> reply.pointer == Pointer(ps, pid, bytes, pageSize))
    else if !granted then t == ps && !reply.Address?
    else
      t == ps + [NewPage(ps, pid, base, bytes, pageSize)] &&
      (reply.Address? ==> reply.pointer == NextNumber(ps, pid, base) * pageSize + HEADER)
  }

  lemma RequestBacked(held: Held, ps: seq<HeapPage>, t: seq<HeapPage>, pid: int, bytes: int, base: nat, granted: bool,
                      answers: Answers, reply: AllocReply, pageSize: int)
    requires 2 * HEADER <= pageSize && TableValid(ps, pageSize) && Backed(held, ps, pageSize) && 0 <= pid && 0 <= bytes
    requires Answered(ps, t, pid, bytes, base, granted, reply, pageSize)
    ensures Backed(HeldAfter(held, Alloc(pid, bytes, base, granted, answers), Told(reply)), t, pageSize)
  {
    if bytes + 2 * HEADER <= pageSize && (FirstPage(ps, pid, bytes) < |ps| || granted) {
      AllocatedBacked(held, ps, t, pid, bytes, base, pageSize);
    }
  }

  /** An address with an allocation behind it is not unclaimed. */
  lemma NotUnclaimed(ps: seq<HeapPage>, pid: int, pointer: int, held: int, bytes: int, pageSize: int)
    requires 0 < pageSize && TableValid(ps, pageSize) && Backs(ps, pid, pointer, held, pageSize)
    ensures !Unclaimed(ps, pid, pointer, bytes, pageSize)
  {
    var i, j := BackingBlock(ps, pid, pointer, held, pageSize);
  }

  lemma AllocatedBacked(held: Held, ps: seq<HeapPage>, t: seq<HeapPage>, pid: int, bytes: int, base: nat, pageSize: int)
    requires 2 * HEADER <= pageSize && TableValid(ps, pageSize) && Backed(held, ps, pageSize) && 0 <= pid && 0 <= bytes
    requires bytes + 2 * HEADER <= pageSize
    requires if FirstPage(ps, pid, bytes) < |ps| then Home(ps, pid, bytes) && t == Served(ps, pid, bytes)
             else t == ps + [NewPage(ps, pid, base, bytes, pageSize)]
    ensures var pointer := if FirstPage(ps, pid, bytes) < |ps| then Pointer(ps, pid, bytes, pageSize)
                           else NextNumber(ps, pid, base) * pageSize + HEADER;
            Backed(held, t, pageSize) && Backed(held[(pid, pointer) := bytes], t, pageSize)
  {
    if FirstPage(ps, pid, bytes) < |ps| {
      var k, b := FirstPage(ps, pid, bytes), SourceBlock(ps, pid, bytes);
      forall q, m
        ensures LiveAt(ps, q, m) <= LiveAt(t, q, m)
      {
        ServedLive(ps, pid, bytes, pageSize, q, m);
      }
      ServedLive(ps, pid, bytes, pageSize, pid, ps[k].number);
      BeginsInside(ps[k].blocks, pageSize, FirstFit(ps[k].blocks, bytes));
      AllocBacked(held, ps, t, pid, Pointer(ps, pid, bytes, pageSize), bytes, ps[k].number, b.offset,
                  GrantedSize(b, bytes), pageSize);
    } else {
      var number := NextNumber(ps, pid, base);
      forall q, m
        ensures LiveAt(ps, q, m) <= LiveAt(t, q, m)
      {
        GrownLive(ps, pid, base, bytes, pageSize, q, m);
      }
      GrownLive(ps, pid, base, bytes, pageSize, pid, number);
      AllocBacked(held, ps, t, pid, number * pageSize + HEADER, bytes, number, HEADER, bytes, pageSize);
    }
  }

  method Release(heap: KernelHeap, ghost held: Held, pid: int, pointer: nat, accepted: nat, released: bool)
    returns (ok: bool)
    requires heap.Valid() && Backed(held, heap.pages, heap.pageSize) && 0 <= pid
    modifies heap
    ensures heap.Valid() && Backed(held - {(pid, pointer)}, heap.pages, heap.pageSize)
  {
    ghost var ps := heap.pages;
    var writes;
    ok, writes := heap.FreeBlock(pointer, pid, accepted, released);
    ReleasedBacked(held, ps, heap.pages, pid, pointer, accepted, released, heap.pageSize);
  }

  lemma ReleasedBacked(held: Held, ps: seq<HeapPage>, t: seq<HeapPage>, pid: int, pointer: nat, accepted: nat,
                       released: bool, pageSize: int)
    requires 0 < pageSize && TableValid(ps, pageSize) && Backed(held, ps, pageSize)
    requires t == ReleasedTable(ps, pid, pointer / pageSize, pointer % pageSize, accepted, released)
    ensures Backed(held - {(pid, pointer)}, t, pageSize)
  {
    var rest := held - {(pid, pointer)};
    forall k | k in rest
      ensures Backs(t, k.0, k.1, rest[k], pageSize)
    {
      assert Backs(ps, k.0, k.1, held[k], pageSize);
      var number, offset := k.1 / pageSize, k.1 % pageSize;
      var size :| held[k] <= size && (offset, size) in LiveAt(ps, k.0, number);
      Parts(k.1, pageSize);
      Parts(pointer, pageSize);
      ReleasedLive(ps, pid, pointer / pageSize, pointer % pageSize, accepted, released, pageSize, k.0, number,
                   (offset, size));
    }
  }

  method EndProcess(heap: KernelHeap, ghost held: Held, pid: int)
    requires heap.Valid() && Backed(held, heap.pages, heap.pageSize) && 0 <= pid
    modifies heap
    ensures heap.Valid() && Backed(HeldAfter(held, End(pid), Ended), heap.pages, heap.pageSize)
  {
    ghost var ps, rest := heap.pages, HeldAfter(held, End(pid), Ended);
    heap.GiveBack(pid);
    forall k | k in rest
      ensures LiveAt(ps, k.0, k.1 / heap.pageSize) <= LiveAt(heap.pages, k.0, k.1 / heap.pageSize)
    {
      assert Backs(ps, k.0, k.1, held[k], heap.pageSize);
      GivenBackLive(ps, pid, heap.pageSize, k.0, k.1 / heap.pageSize);
    }
    StillBacked(rest, ps, heap.pages, heap.pageSize);
  }

  /**
   Requests, releases and ends of processes, one after the other, from an empty table. As long as every request is
   served at home, each address handed out is one its process does not hold, and all that are held are apart.
   */
  method Serve(heap: KernelHeap, reqs: seq<Request>) returns (replies: seq<Reply>)
    requires heap.Valid() && heap.pages == [] && forall i :: 0 <= i < |reqs| ==> 0 <= reqs[i].pid
    modifies heap
    ensures heap.Valid() && |replies| <= |reqs|
    ensures AllApart(Holding(reqs[..|replies|], replies))
    ensures forall i :: 0 <= i < |replies| ==> FreshReply(reqs, replies, i)
    ensures |replies| < |reqs| ==> !AtHome(heap.pages, reqs[|replies|])
  {
    replies := [];
    while |replies| < |reqs| && AtHome(heap.pages, reqs[|replies|])
      invariant |replies| <= |reqs| && heap.Valid()
      invariant Backed(Holding(reqs[..|replies|], replies), heap.pages, heap.pageSize)
      invariant forall i :: 0 <= i < |replies| ==> FreshReply(reqs, replies, i)
    {
      var reply := ServeOne(heap, Holding(reqs[..|replies|], replies), reqs[|replies|]);
      HoldingNext(reqs, replies, |replies|, reply);
      FreshNext(reqs, replies, reply);
      replies := replies + [reply];
    }
    BackedApart(Holding(reqs[..|replies|], replies), heap.pages, heap.pageSize);
  }

  /** The address in reply number `i`, if there is one, was not held when it was handed out. */
  ghost predicate FreshReply(reqs: seq<Request>, replies: seq<Reply>, i: nat)
    requires i < |replies| <= |reqs|
  {
    IsFresh(Holding(reqs[..i], replies[..i]), reqs[i], replies[i])
  }

  ghost predicate IsFresh(held: Held, req: Request, reply: Reply) {
    req.Alloc? && reply.Told? && reply.reply.Address? ==> (req.pid, reply.reply.pointer) !in held
  }

  lemma FreshNext(reqs: seq<Request>, replies: seq<Reply>, reply: Reply)
    requires |replies| < |reqs| && IsFresh(Holding(reqs[..|replies|], replies), reqs[|replies|], reply)
    requires forall i :: 0 <= i < |replies| ==> FreshReply(reqs, replies, i)
    ensures forall i :: 0 <= i < |replies| + 1 ==> FreshReply(reqs, replies + [reply], i)
  {
    var all := replies + [reply];
    forall i | 0 <= i < |all|
      ensures FreshReply(reqs, all, i)
    {
      assert all[..i] == replies[..i];
      if i < |replies| { assert FreshReply(reqs, replies, i); } else { assert replies[..i] == replies; }
    }
  }

  method ServeOne(heap: KernelHeap, ghost held: Held, req: Request) returns (reply: Reply)
    requires heap.Valid() && Backed(held, heap.pages, heap.pageSize) && 0 <= req.pid && AtHome(heap.pages, req)
    modifies heap
    ensures heap.Valid() && Backed(HeldAfter(held, req, reply), heap.pages, heap.pageSize) && IsFresh(held, req, reply)
  {
    match req
    case Alloc(pid, bytes, base, granted, answers) =>
      var told := Allocate(heap, held, pid, bytes, base, granted, answers);
      reply := Told(told);
    case Free(pid, pointer, accepted, released) =>
      var ok := Release(heap, held, pid, pointer, accepted, released);
      reply := Released(ok);
    case End(pid) =>
      EndProcess(heap, held, pid);
      reply := Ended;
  }

  // ---------------------------------------------------------------- an address given twice

  /** One page of 100 bytes: its first 10 bytes allocated; 10 more; the first ones freed again. */
  function OneBlock(): seq<Block> {
    [Block(0, 10, true, 5), Block(-1, 80, false, 20)]
  }

  function TwoBlocks(): seq<Block> {
    [Block(0, 10, true, 5), Block(0, 10, true, 20), Block(-1, 65, false, 35)]
  }

  function FirstFreed(): seq<Block> {
    [Block(0, 10, false, 5), Block(0, 10, true, 20), Block(-1, 65, false, 35)]
  }

  /** Process 1 has a free block at 5 in its page 3, process 2 an allocated one at the same place of its own page 3. */
  function Twins(): seq<HeapPage> {
    [HeapPage(1, 3, FirstFreed()), HeapPage(2, 3, OneBlock())]
  }

  /** No foreign block is cut and the table stays well-formed, yet process 2 is given the address that it holds. */
  lemma AddressGivenAgain(answers: Answers)
    requires answers.own && answers.last
    ensures var ps := Twins();
            TableValid(ps, 100) && TableCompacted(ps) && FirstPage(ps, 2, 10) < |ps| && !Home(ps, 2, 10) &&
            !CutsForeign(ps, 2, 10) && TableValid(Served(ps, 2, 10), 100) &&
            Answer(ps, 2, 10, answers, 100) == Address(305) && (5, 10) in Live(ps[1].blocks) &&
            !Unclaimed(ps, 2, 305, 10, 100)
  {
    var ps := Twins();
    TwinsSearched();
    assert OneBlock()[1..][0] == OneBlock()[1];
    assert !Cuts(ps, 2, 10);
    ServedWell(ps, 2, 10, 100);
    LiveIs(OneBlock(), (5, 10));
    assert ps[1].blocks[0].used && Clash(305, 10, AddressOf(3, 5, 100), 10);
  }

  lemma TwinsSearched()
    ensures FirstPage(Twins(), 2, 10) == 1 && SourcePage(Twins(), 2, 10) == 0
    ensures SourceBlock(Twins(), 2, 10) == Block(0, 10, false, 5)
    ensures TableValid(Twins(), 100) && TableCompacted(Twins())
  {
    var ps := Twins();
    assert FirstFit(FirstFreed(), 10) == 0;
    assert OneBlock()[1..][0] == OneBlock()[1] && FirstFit(OneBlock(), 10) == 1;
    assert ps[1..][0] == ps[1];
  }

  /** Process 1 gets a second block behind its first. */
  lemma SecondBlock()
    ensures var ps := [HeapPage(1, 3, OneBlock()), HeapPage(2, 3, OneBlock())];
            FirstPage(ps, 1, 10) == 0 && Home(ps, 1, 10) &&
            Served(ps, 1, 10) == [HeapPage(1, 3, TwoBlocks()), HeapPage(2, 3, OneBlock())]
  {
    var ps, bs := [HeapPage(1, 3, OneBlock()), HeapPage(2, 3, OneBlock())], OneBlock();
    assert bs[1..][0] == bs[1] && FirstFit(bs, 10) == 1;
    assert MaxNumber(bs) == 0 by { assert bs[..1][..0] == [] && bs[..1][0] == bs[0]; }
    assert Granted(bs, 1, 10) == TwoBlocks();
    ServedAtHome(ps, 1, 10, 100);
  }

  lemma FirstIsFreed()
    ensures ReleasedTable([HeapPage(1, 3, TwoBlocks()), HeapPage(2, 3, OneBlock())], 1, 3, 5, 1, false) == Twins()
  {
    var ps := [HeapPage(1, 3, TwoBlocks()), HeapPage(2, 3, OneBlock())];
    assert PageOf(ps, 1, 3) == 0 && BlockAt(TwoBlocks(), 5) == 0 && Frees(ps, 1, 3, 5);
    assert Freed(TwoBlocks(), 0) == FirstFreed();
    assert Marked(ps, 1, 3, 5) == Twins();
    assert SettledPartly(FirstFreed(), 0) == FirstFreed();
  }

  lemma SameFirstNumber()
    ensures NextNumber([], 1, 3) == 3 && NextNumber([HeapPage(1, 3, OneBlock())], 2, 3) == 3
    ensures NewPage([], 1, 3, 10, 100) == HeapPage(1, 3, OneBlock())
    ensures NewPage([HeapPage(1, 3, OneBlock())], 2, 3, 10, 100) == HeapPage(2, 3, OneBlock())
  {
    NewPageIs([], 1, 3, 10, 100);
    NewPageIs([HeapPage(1, 3, OneBlock())], 2, 3, 10, 100);
    assert [HeapPage(1, 3, OneBlock())][..0] == [];
  }

  /** Both processes have asked for 10 bytes. */
  method BothAsk() returns (heap: KernelHeap, reply: AllocReply)
    ensures fresh(heap) && heap.Valid() && heap.pageSize == 100
    ensures heap.pages == [HeapPage(1, 3, OneBlock()), HeapPage(2, 3, OneBlock())] && reply == Address(305)
  {
    heap := new KernelHeap(100);
    SameFirstNumber();
    reply := AsksFirst(heap, 1);
    assert heap.pages == [HeapPage(1, 3, OneBlock())];
    assert FirstPage(heap.pages, 2, 10) == 1;
    reply := AsksFirst(heap, 2);
    assert [HeapPage(1, 3, OneBlock())] + [HeapPage(2, 3, OneBlock())]
        == [HeapPage(1, 3, OneBlock()), HeapPage(2, 3, OneBlock())];
  }

  /** A process without a page asks for 10 bytes, and gets them in a page 3. */
  method AsksFirst(heap: KernelHeap, pid: int) returns (reply: AllocReply)
    requires heap.Valid() && heap.pageSize == 100 && 0 <= pid && FirstPage(heap.pages, pid, 10) == |heap.pages|
    requires NextNumber(heap.pages, pid, 3) == 3
    requires NewPage(heap.pages, pid, 3, 10, 100) == HeapPage(pid, 3, OneBlock())
    modifies heap
    ensures heap.Valid() && heap.pages == old(heap.pages) + [HeapPage(pid, 3, OneBlock())] && reply == Address(305)
  {
    var writes;
    reply, writes := heap.RequestBlock(10, pid, 3, true, Answers(true, true, true));
  }

  /** Process 1 asks again and frees its first block. */
  method MakeTwins(heap: KernelHeap)
    requires heap.Valid() && heap.pageSize == 100
    requires heap.pages == [HeapPage(1, 3, OneBlock()), HeapPage(2, 3, OneBlock())]
    modifies heap
    ensures heap.Valid() && heap.pages == Twins()
  {
    SecondBlock();
    var reply, writes := heap.RequestBlock(10, 1, 3, true, Answers(true, true, true));
    assert heap.pages == [HeapPage(1, 3, TwoBlocks()), HeapPage(2, 3, OneBlock())];
    FirstIsFreed();
    var ok;
    ok, writes := heap.FreeBlock(305, 1, 1, false);
  }

  /** Five calls on an empty heap after which process 2 has been given the address 305 twice and freed nothing. */
  method SameAddressTwice() returns (first: AllocReply, second: AllocReply)
    ensures first == second == Address(305)
  {
    var heap;
    heap, first := BothAsk();
    MakeTwins(heap);
    AddressGivenAgain(Answers(true, true, true));
    var writes;
    second, writes := heap.RequestBlock(10, 2, 3, true, Answers(true, true, true));
  }
}
