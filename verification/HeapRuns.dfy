/** The kernel's heap and the memory server together: who numbers a new heap page, and whether they agree. */
module HeapRuns {
  import opened Bytes
  import opened Rounding
  import opened PageTable
  import opened MemoryServer
  import opened HeapBlocks
  import opened HeapTable
  import opened KernelHeap
  import opened HeapNumbers

  datatype HeapRequest =
    | Begin(pid: int32, pages: nat)
    | Alloc(pid: int32, bytes: int, answers: Answers)
    | Release(pid: int32, pointer: nat, accepted: nat)
    | End(pid: int32)

  /**
   Of a process that started with `base` pages both sides know the same heap pages, numbered without a gap from
   `base`.
   */
  ghost predicate Agrees(ps: seq<HeapPage>, p: Pages, pid: int, base: nat) {
    exists n: nat :: base <= n && Numbers(ps, pid) == Range(base, n) && OwnsFirst(p, pid, n)
  }

  /** Neither side knows a page of the process. */
  ghost predicate Absent(ps: seq<HeapPage>, p: Pages, pid: int) {
    Numbers(ps, pid) == {} && OwnsFirst(p, pid, 0)
  }

  /** `bases` says with how many pages each process in the system started. */
  ghost predicate AllAgree(ps: seq<HeapPage>, p: Pages, bases: map<int, nat>) {
    forall pid: nat :: if pid in bases then Agrees(ps, p, pid, bases[pid]) else Absent(ps, p, pid)
  }

  /** Nothing changed for process `q`. */
  ghost predicate Untouched(ps: seq<HeapPage>, ps': seq<HeapPage>, p: Pages, p': Pages, q: int) {
    Numbers(ps', q) == Numbers(ps, q) && forall page :: PageKey(q, page) in p' <==> PageKey(q, page) in p
  }

  lemma UntouchedAgrees(ps: seq<HeapPage>, ps': seq<HeapPage>, p: Pages, p': Pages, q: int, base: nat)
    requires Agrees(ps, p, q, base) && Untouched(ps, ps', p, p', q)
    ensures Agrees(ps', p', q, base)
  {
    var n: nat :| base <= n && Numbers(ps, q) == Range(base, n) && OwnsFirst(p, q, n);
    assert OwnsFirst(p', q, n);
  }

  // ---------------------------------------------------------------- a request

  /** A page more on both sides has the same number on both. */
  lemma GrownAgrees(ps: seq<HeapPage>, page: HeapPage, p: Pages, p': Pages, pid: int, base: nat, from: nat)
    requires Agrees(ps, p, pid, base) && OwnsFirst(p, pid, from) && Extends(p, p', NewKeys(pid, from, 1))
    requires page.pid == pid && page.number == NextNumber(ps, pid, base)
    ensures page.number == from && Agrees(ps + [page], p', pid, base)
    ensures forall q :: q != pid ==> Untouched(ps, ps + [page], p, p', q)
  {
    var n: nat :| base <= n && Numbers(ps, pid) == Range(base, n) && OwnsFirst(p, pid, n);
    OwnsOnce(p, pid, n, from);
    NextIsEnd(ps, pid, base, n);
    NumbersGrown(ps, page, pid);
    assert Range(base, n) + {n} == Range(base, n + 1);
    assert OwnsFirst(p', pid, n + 1) by {
      assert PageKey(pid, n) in NewKeys(pid, n, 1);
    }
    forall q | q != pid
      ensures Untouched(ps, ps + [page], p, p', q)
    {
      NumbersGrown(ps, page, q);
    }
  }

  /** `pedido_bloque_memoria`, with the memory server asked for a page if the process needs one. */
  method Allocate(heap: KernelHeap, server: MemoryServer, pid: int32, bytes: int, base: nat, answers: Answers)
    returns (reply: AllocReply)
    requires Numbered(heap.pages) && server.Tabled() && 0 <= pid && Agrees(heap.pages, server.Pages(), pid, base)
    modifies heap, server.store`kinds, server.store.mem
    ensures Numbered(heap.pages) && server.Tabled() && Agrees(heap.pages, server.Pages(), pid, base)
    ensures forall q :: q != pid ==> Untouched(old(heap.pages), heap.pages, old(server.Pages()), server.Pages(), q)
    ensures reply == NoPage <==>
              bytes + 2 * HEADER <= heap.pageSize && FirstPage(old(heap.pages), pid, bytes) == |old(heap.pages)| &&
              server.Capacity() <= |old(server.Pages())|
  {
    ghost var ps, p := heap.pages, server.Pages();
    var number := heap.FindSpace(bytes, pid);
    if bytes + 2 * HEADER <= heap.pageSize && number < 0 {
      reply := AllocatePage(heap, server, pid, bytes, base, answers);
    } else {
      var writes;
      reply, writes := heap.RequestBlock(bytes, pid, base, false, answers);
      NoNumbersChange(ps, heap.pages, pid, bytes);
      UntouchedAgrees(ps, heap.pages, p, p, pid, base);
    }
  }

  lemma NoNumbersChange(ps: seq<HeapPage>, t: seq<HeapPage>, pid: int, bytes: int)
    requires t == ps || (FirstPage(ps, pid, bytes) < |ps| && t == Served(ps, pid, bytes))
    ensures forall q :: Numbers(t, q) == Numbers(ps, q)
  {
    forall q
      ensures Numbers(t, q) == Numbers(ps, q)
    {
      if t != ps { NumbersServed(ps, pid, bytes, q); }
    }
  }

  method AllocatePage(heap: KernelHeap, server: MemoryServer, pid: int32, bytes: int, base: nat, answers: Answers)
    returns (reply: AllocReply)
    requires Numbered(heap.pages) && server.Tabled() && 0 <= pid && Agrees(heap.pages, server.Pages(), pid, base)
    requires bytes + 2 * HEADER <= heap.pageSize && FirstPage(heap.pages, pid, bytes) == |heap.pages|
    modifies heap, server.store`kinds, server.store.mem
    ensures Numbered(heap.pages) && server.Tabled() && Agrees(heap.pages, server.Pages(), pid, base)
    ensures forall q :: q != pid ==> Untouched(old(heap.pages), heap.pages, old(server.Pages()), server.Pages(), q)
    ensures reply == NoPage <==> server.Capacity() <= |old(server.Pages())|
  {
    ghost var ps, p := heap.pages, server.Pages();
    var answer := server.AssignHeapPages(pid, 1);
    var writes;
    reply, writes := heap.RequestBlock(bytes, pid, base, answer == Assigned, answers);
    if answer == Assigned {
      ghost var from: nat :| OwnsFirst(p, pid, from) && Extends(p, server.Pages(), NewKeys(pid, from, 1));
      GrownAgrees(ps, NewPage(ps, pid, base, bytes, heap.pageSize), p, server.Pages(), pid, base, from);
    }
  }

  // ---------------------------------------------------------------- a release

  /** The page that is given back is the last of its process. */
  predicate LastFirst(ps: seq<HeapPage>, pid: int, number: int, offset: int, accepted: nat) {
    OffersPage(ps, pid, number, offset, accepted) ==> PageOf(ps, pid, number + 1) == |ps|
  }

  lemma KnownPage(ps: seq<HeapPage>, pid: int, number: int)
    ensures number in Numbers(ps, pid) <==> PageOf(ps, pid, number) < |ps|
  {
    assert forall i :: 0 <= i < |ps| && ps[i].pid == pid ==> ps[i].number in Numbers(ps, pid);
  }

  /**
   The two sides are out of step: the kernel's number for the next page of the process is `n`, while memory, which
   counts the pages it owns, would number it `n - 1`, as one of them is numbered already.
   */
  ghost predicate OutOfStep(ps: seq<HeapPage>, p: Pages, pid: int, base: nat) {
    var n := NextNumber(ps, pid, base);
    |KeysOfPid(p, pid)| == n - 1 && PageKey(pid, n - 1) in p
  }

  lemma {:induction false} NewKeysSize(pid: int, n: nat)
    ensures |NewKeys(pid, 0, n)| == n
  {
    if n == 0 {
      assert NewKeys(pid, 0, 0) == {};
    } else {
      NewKeysSize(pid, n - 1);
      assert NewKeys(pid, 0, n) == NewKeys(pid, 0, n - 1) + {PageKey(pid, n - 1)};
    }
  }

  /** A page that both sides drop. */
  lemma DroppedAgrees(ps: seq<HeapPage>, t: seq<HeapPage>, p: Pages, pid: int, number: int, base: nat)
    requires Agrees(ps, p, pid, base) && number in Numbers(ps, pid) && Numbers(t, pid) == Numbers(ps, pid) - {number}
    ensures PageKey(pid, number) in p && (number + 1 in Numbers(ps, pid) <==> PageKey(pid, number + 1) in p)
    ensures number + 1 !in Numbers(ps, pid) ==> Agrees(t, p - {PageKey(pid, number)}, pid, base)
    ensures number + 1 in Numbers(ps, pid) ==> OutOfStep(t, p - {PageKey(pid, number)}, pid, base)
  {
    var n: nat :| base <= n && Numbers(ps, pid) == Range(base, n) && OwnsFirst(p, pid, n);
    var p' := p - {PageKey(pid, number)};
    assert number in Range(base, n);
    if number + 1 !in Numbers(ps, pid) {
      assert number + 1 !in Range(base, n) && number == n - 1;
      assert Numbers(t, pid) == Range(base, n - 1);
      assert OwnsFirst(p', pid, n - 1);
    } else {
      assert number + 1 in Range(base, n);
      OneShort(t, p, pid, number, base, n);
    }
  }

  lemma OneShort(t: seq<HeapPage>, p: Pages, pid: int, number: int, base: nat, n: nat)
    requires base <= number < n - 1 && Numbers(t, pid) == Range(base, n) - {number} && OwnsFirst(p, pid, n)
    ensures OutOfStep(t, p - {PageKey(pid, number)}, pid, base)
  {
    var p' := p - {PageKey(pid, number)};
    ScanIsNext(t, pid, base);
    assert n - 1 in Numbers(t, pid);
    assert NextNumber(t, pid, base) - 1 in Range(base, n) - {number} || NextNumber(t, pid, base) == base;
    assert NextNumber(t, pid, base) == n;
    assert KeysOfPid(p', pid) == NewKeys(pid, 0, n) - {PageKey(pid, number)};
    assert PageKey(pid, number) in NewKeys(pid, 0, n);
    NewKeysSize(pid, n);
  }

  /**
   `liberar_bloque_heap`, with the memory server asked to take a page back if the release leaves it empty. The sides
   agree afterwards exactly if that was the last page of the process, or no page was given back.
   */
  method Free(heap: KernelHeap, server: MemoryServer, pid: int32, pointer: nat, accepted: nat, ghost base: nat)
    returns (ok: bool)
    requires Numbered(heap.pages) && server.Tabled() && 0 <= pid && 0 < heap.pageSize
    requires Agrees(heap.pages, server.Pages(), pid, base)
    modifies heap, server.store`kinds, server.store.mem
    ensures Numbered(heap.pages)
    ensures forall q :: q != pid ==> Untouched(old(heap.pages), heap.pages, old(server.Pages()), server.Pages(), q)
    ensures LastFirst(old(heap.pages), pid, pointer / heap.pageSize, pointer % heap.pageSize, accepted) ==>
              server.Tabled() && Agrees(heap.pages, server.Pages(), pid, base)
    ensures !LastFirst(old(heap.pages), pid, pointer / heap.pageSize, pointer % heap.pageSize, accepted) ==>
              !server.Tabled() && OutOfStep(heap.pages, server.Pages(), pid, base)
  {
    ok := FreeAt(heap, server, pid, pointer / heap.pageSize, pointer % heap.pageSize, accepted, base);
  }

  method FreeAt(heap: KernelHeap, server: MemoryServer, pid: int32, number: int, offset: int, accepted: nat,
                ghost base: nat)
    returns (ok: bool)
    requires Numbered(heap.pages) && server.Tabled() && 0 <= pid && Agrees(heap.pages, server.Pages(), pid, base)
    modifies heap, server.store`kinds, server.store.mem
    ensures Numbered(heap.pages)
    ensures forall q :: q != pid ==> Untouched(old(heap.pages), heap.pages, old(server.Pages()), server.Pages(), q)
    ensures if LastFirst(old(heap.pages), pid, number, offset, accepted) then
              server.Tabled() && Agrees(heap.pages, server.Pages(), pid, base)
            else !server.Tabled() && OutOfStep(heap.pages, server.Pages(), pid, base)
  {
    ghost var ps := heap.pages;
    var released := AskMemory(server, pid, number, offset, accepted, heap.pages, base);
    ReleasedNumbered(ps, pid, number, offset, accepted, released);
    var writes;
    ok, writes := heap.FreeAt(number, offset, pid, accepted, released);
  }

  /** `ps` is the kernel's table before the release. */
  method AskMemory(server: MemoryServer, pid: int32, number: int, offset: int, accepted: nat, ps: seq<HeapPage>,
                   ghost base: nat)
    returns (released: bool)
    requires Numbered(ps) && server.Tabled() && 0 <= pid && Agrees(ps, server.Pages(), pid, base)
    modifies server.store`kinds, server.store.mem
    ensures var t := ReleasedTable(ps, pid, number, offset, accepted, released);
            (forall q :: q != pid ==> Untouched(ps, t, old(server.Pages()), server.Pages(), q)) &&
            if LastFirst(ps, pid, number, offset, accepted) then server.Tabled() && Agrees(t, server.Pages(), pid, base)
            else !server.Tabled() && OutOfStep(t, server.Pages(), pid, base)
  {
    ghost var p := server.Pages();
    NumbersAfter(ps, pid, number, offset, accepted);
    released := false;
    if OffersPage(ps, pid, number, offset, accepted) {
      released := GiveBack(server, pid, number, ps, ReleasedTable(ps, pid, number, offset, accepted, true), base);
    } else {
      UntouchedAgrees(ps, ReleasedTable(ps, pid, number, offset, accepted, false), p, p, pid, base);
    }
  }

  /** Memory takes back a page that the kernel drops: the table goes from `ps` to `t`. */
  method GiveBack(server: MemoryServer, pid: int32, number: int, ghost ps: seq<HeapPage>, ghost t: seq<HeapPage>,
                  ghost base: nat)
    returns (released: bool)
    requires server.Tabled() && 0 <= pid && Agrees(ps, server.Pages(), pid, base) && number in Numbers(ps, pid)
    requires forall q :: Numbers(t, q) == Numbers(ps, q) - if q == pid then {number} else {}
    modifies server.store`kinds, server.store.mem
    ensures released
    ensures forall q :: q != pid ==> Untouched(ps, t, old(server.Pages()), server.Pages(), q)
    ensures PageOf(ps, pid, number + 1) == |ps| ==> server.Tabled() && Agrees(t, server.Pages(), pid, base)
    ensures PageOf(ps, pid, number + 1) < |ps| ==> !server.Tabled() && OutOfStep(t, server.Pages(), pid, base)
  {
    DroppedAgrees(ps, t, server.Pages(), pid, number, base);
    KnownPage(ps, pid, number + 1);
    server.PagesFitWord(PageKey(pid, number));
    var answer := server.FreePage(pid, number as int32);
    released := answer == PageFreed;
  }

  lemma NumbersAfter(ps: seq<HeapPage>, pid: int, number: int, offset: int, accepted: nat)
    requires Numbered(ps) && 0 <= pid
    ensures forall released, q :: Numbers(ReleasedTable(ps, pid, number, offset, accepted, released), q)
              == Numbers(ps, q)
               - if q == pid && OffersPage(ps, pid, number, offset, accepted) && released then {number} else {}
    ensures OffersPage(ps, pid, number, offset, accepted) ==> number in Numbers(ps, pid)
  {
    forall released, q
      ensures Numbers(ReleasedTable(ps, pid, number, offset, accepted, released), q)
           == Numbers(ps, q)
            - if q == pid && OffersPage(ps, pid, number, offset, accepted) && released then {number} else {}
      ensures OffersPage(ps, pid, number, offset, accepted) ==> number in Numbers(ps, pid)
    {
      NumbersReleased(ps, pid, number, offset, accepted, released, q);
    }
  }

  // ---------------------------------------------------------------- runs

  /** What the processes in the system started with, after a request; `fits` says whether memory had the pages. */
  function BasesAfter(bases: map<int, nat>, req: HeapRequest, fits: bool): map<int, nat> {
    match req
    case Begin(pid, pages) => if pid as int !in bases && fits then bases[pid as int := pages] else bases
    case End(pid) => bases - {pid as int}
    case _ => bases
  }

  ghost predicate LeavesOutOfStep(ps: seq<HeapPage>, p: Pages, req: HeapRequest, bases: map<int, nat>) {
    req.Release? && req.pid as int in bases && OutOfStep(ps, p, req.pid, bases[req.pid as int])
  }

  /**
   Processes start, ask for memory, release it and end, one request after the other. The two sides agree on the pages
   of every process to the end, and neither knows a page of any other; the only way out is a release that gives back a
   page which is not the last of its process.
   */
  method Serve(heap: KernelHeap, server: MemoryServer, reqs: seq<HeapRequest>)
    returns (served: nat, ordered: bool, bases: map<int, nat>)
    requires Numbered(heap.pages) && server.Tabled() && 0 < heap.pageSize
    requires heap.pages == [] && server.Pages() == map[]
    requires forall i :: 0 <= i < |reqs| ==> 0 <= reqs[i].pid
    modifies heap, server.store`kinds, server.store.mem, server.cache
    ensures served <= |reqs| && Numbered(heap.pages)
    ensures ordered ==> served == |reqs| && server.Tabled() && AllAgree(heap.pages, server.Pages(), bases)
    ensures !ordered ==>
              0 < served && !server.Tabled() && LeavesOutOfStep(heap.pages, server.Pages(), reqs[served - 1], bases)
  {
    served, bases := 0, map[];
    while served < |reqs|
      invariant 0 <= served <= |reqs| && Numbered(heap.pages) && server.Tabled()
      invariant AllAgree(heap.pages, server.Pages(), bases)
    {
      ordered, bases := ServeOne(heap, server, bases, reqs[served]);
      served := served + 1;
      if !ordered {
        return;
      }
    }
    ordered := true;
  }

  /** A process number is given out once, and only a process in the system asks for anything. */
  method ServeOne(heap: KernelHeap, server: MemoryServer, bases: map<int, nat>, req: HeapRequest)
    returns (ordered: bool, after: map<int, nat>)
    requires Numbered(heap.pages) && server.Tabled() && 0 < heap.pageSize && 0 <= req.pid
    requires AllAgree(heap.pages, server.Pages(), bases)
    modifies heap, server.store`kinds, server.store.mem, server.cache
    ensures Numbered(heap.pages)
    ensures after == BasesAfter(bases, req, req.Begin? && req.pages <= server.Capacity() - |old(server.Pages())|)
    ensures ordered ==> server.Tabled() && AllAgree(heap.pages, server.Pages(), after)
    ensures !ordered ==> !server.Tabled() && LeavesOutOfStep(heap.pages, server.Pages(), req, after)
  {
    ordered, after := true, bases;
    ghost var ps, p := heap.pages, server.Pages();
    match req
    case Begin(pid, n) =>
      if pid as int !in bases { after := BeginProcess(heap.pages, server, pid, n, bases); }
    case Alloc(pid, bytes, answers) =>
      if pid as int in bases {
        var reply := Allocate(heap, server, pid, bytes, bases[pid as int], answers);
        OneChanges(ps, heap.pages, p, server.Pages(), bases, bases, pid);
      }
    case Release(pid, pointer, accepted) =>
      if pid as int in bases { ordered := ReleaseBlock(heap, server, bases, pid, pointer, accepted); }
    case End(pid) =>
      EndProcess(heap, server, pid);
      after := bases - {pid as int};
      OneChanges(ps, heap.pages, p, server.Pages(), bases, after, pid);
  }

  method ReleaseBlock(heap: KernelHeap, server: MemoryServer, bases: map<int, nat>, pid: int32, pointer: nat,
                      accepted: nat)
    returns (ordered: bool)
    requires Numbered(heap.pages) && server.Tabled() && 0 < heap.pageSize && 0 <= pid && pid as int in bases
    requires AllAgree(heap.pages, server.Pages(), bases)
    modifies heap, server.store`kinds, server.store.mem
    ensures Numbered(heap.pages)
    ensures ordered ==> server.Tabled() && AllAgree(heap.pages, server.Pages(), bases)
    ensures !ordered ==> !server.Tabled() && OutOfStep(heap.pages, server.Pages(), pid, bases[pid as int])
  {
    ghost var ps, p := heap.pages, server.Pages();
    ordered := LastFirst(heap.pages, pid, pointer / heap.pageSize, pointer % heap.pageSize, accepted);
    var ok := Free(heap, server, pid, pointer, accepted, bases[pid as int]);
    if ordered { OneChanges(ps, heap.pages, p, server.Pages(), bases, bases, pid); }
  }

  /** `iniciarProceso` asks memory for the pages of the code and of the stack. */
  method BeginProcess(ghost ps: seq<HeapPage>, server: MemoryServer, pid: int32, n: nat, bases: map<int, nat>)
    returns (after: map<int, nat>)
    requires server.Tabled() && 0 <= pid && pid as int !in bases && AllAgree(ps, server.Pages(), bases)
    modifies server.store`kinds, server.store.mem
    ensures server.Tabled() && AllAgree(ps, server.Pages(), after)
    ensures after == if n <= server.Capacity() - |old(server.Pages())| then bases[pid as int := n] else bases
  {
    ghost var p := server.Pages();
    assert Absent(ps, p, pid);
    var reply := server.CreateInitialPages(pid, n);
    after := if reply == Started then bases[pid as int := n] else bases;
    if reply == Started {
      BegunAgrees(ps, p, server.Pages(), bases, pid, n);
    } else {
      assert server.Pages() == p;
    }
  }

  lemma BegunAgrees(ps: seq<HeapPage>, p: Pages, p': Pages, bases: map<int, nat>, pid: nat, n: nat)
    requires AllAgree(ps, p, bases) && Absent(ps, p, pid) && Extends(p, p', NewKeys(pid, 0, n))
    ensures AllAgree(ps, p', bases[pid := n])
  {
    assert Numbers(ps, pid) == Range(n, n) && OwnsFirst(p', pid, n);
    OneChanges(ps, ps, p, p', bases, bases[pid := n], pid);
  }

  /** The end of a process: the kernel blanks its pages, memory drops them. */
  method EndProcess(heap: KernelHeap, server: MemoryServer, pid: int32)
    requires Numbered(heap.pages) && server.Tabled() && 0 <= pid
    modifies heap, server.store`kinds, server.store.mem, server.cache
    ensures Numbered(heap.pages) && server.Tabled() && Absent(heap.pages, server.Pages(), pid)
    ensures forall q: nat :: q != pid as int ==>
              Untouched(old(heap.pages), heap.pages, old(server.Pages()), server.Pages(), q)
  {
    ghost var ps := heap.pages;
    heap.GiveBack(pid);
    var reply := server.FinishProcess(pid as int);
    forall q: nat
      ensures Numbers(heap.pages, q) == if q == pid as int then {} else Numbers(ps, q)
    {
      GivenBackNumbers(ps, pid, heap.pageSize, q);
    }
  }

  lemma GivenBackNumbers(ps: seq<HeapPage>, pid: int, pageSize: int, q: nat)
    ensures Numbers(GivenBack(ps, pid, pageSize), q) == if q == pid then {} else Numbers(ps, q)
  {
    var t := GivenBack(ps, pid, pageSize);
    assert forall i :: 0 <= i < |ps| && ps[i].pid == q && q != pid ==> t[i].number in Numbers(t, q);
  }

  /** Both sides agree as before on every process but one. */
  lemma OneChanges(ps: seq<HeapPage>, ps': seq<HeapPage>, p: Pages, p': Pages, bases: map<int, nat>,
                   after: map<int, nat>, pid: nat)
    requires AllAgree(ps, p, bases) && after - {pid} == bases - {pid}
    requires forall q: nat :: q != pid ==> Untouched(ps, ps', p, p', q)
    requires if pid in after then Agrees(ps', p', pid, after[pid]) else Absent(ps', p', pid)
    ensures AllAgree(ps', p', after)
  {
    forall q: nat | q != pid
      ensures if q in after then Agrees(ps', p', q, after[q]) else Absent(ps', p', q)
    {
      assert Untouched(ps, ps', p, p', q);
      assert q in after <==> q in after - {pid};
      assert q in bases <==> q in bases - {pid};
      if q in after {
        assert (after - {pid})[q] == (bases - {pid})[q];
        UntouchedAgrees(ps, ps', p, p', q, bases[q]);
      }
    }
  }
}
