/** Whole runs of the memory server: the message loops of its kernel and CPU connections. */
module MemoryRuns {
  import opened Bytes
  import opened PageTable
  import opened PageCache
  import opened MemoryServer

  datatype Request =
    | Init(pid: int32, pages: nat)
    | Assign(pid: int32, pages: nat)
    | Load(pid: int32, page: nat, offset: int, size: nat)
    | Store(kind: DataKind, pid: int32, page: nat, offset: int, data: seq<byte>)
    | Finish(pid: int32)
    | Release(pid: int32, number: int32)
    | Flush

  /** What clients owe: real process and page numbers, and accesses that stay inside their page. */
  predicate WellFormed(req: Request, frameSize: nat) {
    match req
    case Init(pid, _) => 0 <= pid
    case Assign(pid, _) => 0 <= pid
    case Load(pid, _, offset, size) => 0 <= pid && ReadInPage(offset, size, frameSize)
    case Store(kind, pid, _, offset, data) => 0 <= pid && WriteInPage(kind, offset, data, frameSize)
    case Finish(pid) => 0 <= pid
    case Release(pid, page) => 0 <= pid && 0 <= page
    case Flush => true
  }

  /** One request served by the flat memory, which can hold `capacity` pages. New pages hold anything. */
  ghost predicate FlatStep(capacity: int, frameSize: nat, p: Pages, req: Request, reply: Reply, p': Pages)
    requires WellFormed(req, frameSize) && PageSized(p, frameSize)
  {
    match req
    case Load(pid, page, offset, size) =>
      p' == p && reply == FlatRead(p, frameSize, PageKey(pid, page), offset, size)
    case Store(kind, pid, page, offset, data) =>
      (p', reply) == FlatWrite(p, frameSize, kind, PageKey(pid, page), offset, data)
    case Finish(pid) =>
      p' == p - KeysOfPid(p, pid) && reply == Finished
    case Init(pid, n) =>
      if n <= capacity - |p| then reply == Started && Extends(p, p', NewKeys(pid, 0, n))
      else reply == NoMemory && p' == p - KeysOfPid(p, pid)
    case Assign(pid, n) =>
      if n <= capacity - |p| then
        reply == Assigned && exists from: nat :: OwnsFirst(p, pid, from) && Extends(p, p', NewKeys(pid, from, n))
      else reply == NoMemory && p' == p
    case Release(pid, page) =>
      p' == p - {PageKey(pid, page)} && reply == if PageKey(pid, page) in p then PageFreed else PageNotFreed
    case Flush =>
      p' == p && reply == Flushed
  }

  /**
   The server still has a flat memory behind it afterwards. A page given back must not be cached and must be the last of
   its process; a process that starts must own nothing, or claim nothing, and have nothing cached if it is refused.
   */
  ghost predicate Safe(capacity: int, p: Pages, es: seq<Entry>, req: Request) {
    match req
    case Release(pid, page) =>
      PageKey(pid, page) in p ==> !Cached(es, PageKey(pid, page)) && PageKey(pid, page + 1) !in p
    case Init(pid, n) =>
      if n <= capacity - |p| then OwnsFirst(p, pid, 0) || n == 0 else forall e :: e in es ==> e.key.pid != pid
    case _ => true
  }

  ghost predicate Right(capacity: int, frameSize: nat, p: Pages, req: Request, reply: Reply, p': Pages) {
    WellFormed(req, frameSize) && PageSized(p, frameSize) && FlatStep(capacity, frameSize, p, req, reply, p')
  }

  /**
   The first requests take the flat memory from `p0` through the states `ps`: each reply is right, and so is each
   next state.
   */
  ghost predicate FlatRun(capacity: int, frameSize: nat, p0: Pages, ps: seq<Pages>, reqs: seq<Request>,
                          replies: seq<Reply>)
  {
    && |replies| <= |reqs| && |ps| == |replies| + 1 && ps[0] == p0
    && forall i :: 0 <= i < |replies| ==> Right(capacity, frameSize, ps[i], reqs[i], replies[i], ps[i + 1])
  }

  lemma FlatRunNext(capacity: int, frameSize: nat, p0: Pages, ps: seq<Pages>, reqs: seq<Request>, replies: seq<Reply>,
                    reply: Reply, p': Pages)
    requires FlatRun(capacity, frameSize, p0, ps, reqs, replies) && |replies| < |reqs|
    requires Right(capacity, frameSize, ps[|replies|], reqs[|replies|], reply, p')
    ensures FlatRun(capacity, frameSize, p0, ps + [p'], reqs, replies + [reply])
  {
    var states, all := ps + [p'], replies + [reply];
    forall i | 0 <= i < |all|
      ensures Right(capacity, frameSize, states[i], reqs[i], all[i], states[i + 1])
    {
      if i < |replies| { assert Right(capacity, frameSize, ps[i], reqs[i], replies[i], ps[i + 1]); }
    }
  }

  /** Room can be made for any page, and the cache's counters are right. */
  ghost predicate Sound(server: MemoryServer)
    reads server, server.cache
  {
    server.cache.Warm() && Exact(server.cache.entries, server.cache.counters)
  }

  /** One message. */
  method Dispatch(server: MemoryServer, req: Request) returns (reply: Reply)
    requires server.Consistent() && WellFormed(req, server.store.frameSize)
    modifies server.store`kinds, server.store.mem, server.cache
    ensures reply == Fault ==> req.Load? && !old(Sound(server))
    ensures reply != Fault ==>
              (server.Consistent() <==> Safe(server.Capacity(), old(server.Pages()), old(server.cache.entries), req))
    ensures reply != Fault && server.Consistent() ==>
              FlatStep(server.Capacity(), server.store.frameSize, old(server.Pages()), req, reply, server.Pages())
    ensures reply != Fault && !req.Finish? && !req.Flush? && old(Sound(server)) ==> Sound(server)
  {
    match req
    case Init(_, _) => reply := DispatchClaim(server, req);
    case Assign(_, _) => reply := DispatchClaim(server, req);
    case Load(_, _, _, _) => reply := DispatchAccess(server, req);
    case Store(_, _, _, _, _) => reply := DispatchAccess(server, req);
    case Finish(pid) => reply := server.FinishProcess(pid);
    case Release(pid, page) => reply := server.FreePage(pid, page);
    case Flush => reply := server.Flush();
  }

  /** The first pages of a process, or more of them. */
  method DispatchClaim(server: MemoryServer, req: Request) returns (reply: Reply)
    requires server.Consistent() && WellFormed(req, server.store.frameSize) && (req.Init? || req.Assign?)
    modifies server.store`kinds, server.store.mem
    ensures reply != Fault
    ensures server.Consistent() <==> Safe(server.Capacity(), old(server.Pages()), old(server.cache.entries), req)
    ensures server.Consistent() ==>
              FlatStep(server.Capacity(), server.store.frameSize, old(server.Pages()), req, reply, server.Pages())
  {
    match req
    case Init(pid, n) => reply := server.CreateInitialPages(pid, n);
    case Assign(pid, n) => reply := server.AssignHeapPages(pid, n);
  }

  /** A read or a write. */
  method DispatchAccess(server: MemoryServer, req: Request) returns (reply: Reply)
    requires server.Consistent() && WellFormed(req, server.store.frameSize) && (req.Load? || req.Store?)
    modifies server.store.mem, server.cache
    ensures reply == Fault ==> req.Load? && !old(Sound(server))
    ensures reply != Fault ==> server.Consistent()
    ensures reply != Fault ==>
              FlatStep(server.Capacity(), server.store.frameSize, old(server.Pages()), req, reply, server.Pages())
    ensures reply != Fault && old(Sound(server)) ==> Sound(server)
  {
    match req
    case Load(pid, page, offset, size) =>
      ghost var es, cs, free := server.cache.entries, server.cache.counters, server.cache.free;
      reply := server.Read(pid, page, offset, size);
      if reply == Fault && Exact(es, cs) { FaultOnlyCold(es, cs, free, server.cache.quota, pid); }
    case Store(kind, pid, page, offset, data) => reply := server.Write(kind, pid, page, offset, data);
  }

  /** Looks at the server to tell whether a request is safe. The source does not: it serves the others as well. */
  method IsSafe(server: MemoryServer, req: Request) returns (safe: bool)
    requires server.Consistent() && WellFormed(req, server.store.frameSize)
    ensures safe <==> Safe(server.Capacity(), server.Pages(), server.cache.entries, req)
  {
    match req
    case Init(pid, n) =>
      var empty := server.store.CountPages(EMPTY);
      var owned := server.store.CountPages(pid);
      server.OwnsNone(pid);
      safe := if n <= empty then owned == 0 || n == 0 else forall e :: e in server.cache.entries ==> e.key.pid != pid;
    case Release(pid, page) =>
      var f := server.store.FindFrame(pid, page);
      var g := server.store.FindFrame(pid, page + 1);
      server.store.HeldInPages(PageKey(pid, page));
      server.store.HeldInPages(PageKey(pid, page + 1));
      safe := f == -1 || (g == -1 && !Cached(server.cache.entries, PageKey(pid, page)));
    case _ => safe := true;
  }

  // ---------------------------------------------------------------- the loop

  predicate Unsafe(req: Request) {
    req.Release? || req.Init?
  }

  datatype Outcome = Completed | Faulted | Spoiled

  /** What took the cache's soundness away, if it was sound to begin with. */
  ghost predicate Unsettled(reqs: seq<Request>, n: nat)
    requires n <= |reqs|
  {
    exists i :: 0 <= i < n && (reqs[i].Finish? || reqs[i].Flush?)
  }

  lemma UnsettledLater(reqs: seq<Request>, n: nat)
    requires n < |reqs|
    ensures Unsettled(reqs, n) || reqs[n].Finish? || reqs[n].Flush? ==> Unsettled(reqs, n + 1)
  {
  }

  /** The next message of a run. */
  method ServeNext(server: MemoryServer, reqs: seq<Request>, replies: seq<Reply>, ghost p0: Pages, ghost ps: seq<Pages>)
    returns (reply: Reply, safe: bool)
    requires server.Consistent() && |replies| < |reqs| && WellFormed(reqs[|replies|], server.store.frameSize)
    requires FlatRun(server.Capacity(), server.store.frameSize, p0, ps, reqs, replies) &&
             ps[|replies|] == server.Pages()
    modifies server.store`kinds, server.store.mem, server.cache
    ensures reply == Fault ==> reqs[|replies|].Load? && !old(Sound(server))
    ensures reply != Fault ==> (safe <==> server.Consistent()) && (safe || Unsafe(reqs[|replies|]))
    ensures reply != Fault && safe ==>
              FlatRun(server.Capacity(), server.store.frameSize, p0, ps + [server.Pages()], reqs, replies + [reply])
    ensures reply != Fault && old(Sound(server)) && !Sound(server) ==> reqs[|replies|].Finish? || reqs[|replies|].Flush?
  {
    safe := IsSafe(server, reqs[|replies|]);
    reply := Dispatch(server, reqs[|replies|]);
    if reply != Fault && safe {
      FlatRunNext(server.Capacity(), server.store.frameSize, p0, ps, reqs, replies, reply, server.Pages());
    }
  }

  /**
   The message loop. Every reply is the one the flat memory gives, over any run of requests. There are two ways out.
   A read finds no room and nothing to give up; then the cache was not sound to begin with, or a process had ended or
   the cache been flushed before. Or the last request was not safe.
   */
  method Serve(server: MemoryServer, reqs: seq<Request>)
    returns (replies: seq<Reply>, outcome: Outcome, ghost ps: seq<Pages>)
    requires server.Consistent()
    requires forall i :: 0 <= i < |reqs| ==> WellFormed(reqs[i], server.store.frameSize)
    modifies server.store`kinds, server.store.mem, server.cache
    ensures FlatRun(server.Capacity(), server.store.frameSize, old(server.Pages()), ps, reqs, replies)
    ensures outcome == Completed ==> |replies| == |reqs| && server.Consistent() && ps[|replies|] == server.Pages()
    ensures outcome == Faulted ==>
              |replies| < |reqs| && reqs[|replies|].Load? && (old(Sound(server)) ==> Unsettled(reqs, |replies|))
    ensures outcome == Spoiled ==> |replies| < |reqs| && Unsafe(reqs[|replies|]) && !server.Consistent()
  {
    replies, ps := [], [server.Pages()];
    ghost var p0, capacity, frameSize := server.Pages(), server.Capacity(), server.store.frameSize;
    while |replies| < |reqs|
      invariant server.Consistent()
      invariant FlatRun(capacity, frameSize, p0, ps, reqs, replies) && ps[|replies|] == server.Pages()
      invariant old(Sound(server)) && !Sound(server) ==> Unsettled(reqs, |replies|)
    {
      var reply, safe := ServeNext(server, reqs, replies, p0, ps);
      if reply == Fault {
        return replies, Faulted, ps;
      }
      if !safe {
        return replies, Spoiled, ps;
      }
      UnsettledLater(reqs, |replies|);
      replies, ps := replies + [reply], ps + [server.Pages()];
    }
    return replies, Completed, ps;
  }

  // ---------------------------------------------------------------- a run that ends badly

  /**
   With one slot in the cache: two processes start, the first reads its page and ends, and the second one's read brings
   the server down.
   */
  method LastSlotLost(frames: nat, frameSize: nat) returns (reply: Reply)
    requires 0 < frames < 0x1000_0000 && 8 <= frameSize && ReservedFrames(frames, frameSize) + 2 <= frames
    ensures reply == Fault
  {
    var server := new MemoryServer(frames, frameSize, 1, 1);
    StartTwo(server);
    reply := FirstReadsAndEnds(server);
  }

  method StartTwo(server: MemoryServer)
    requires server.Consistent() && server.Pages() == map[] && 2 <= server.Capacity()
    modifies server.store`kinds, server.store.mem
    ensures server.Consistent() && server.Pages().Keys == {PageKey(1, 0), PageKey(2, 0)}
  {
    StartOne(server, 1);
    assert server.Pages().Keys == {PageKey(1, 0)};
    StartOne(server, 2);
  }

  method FirstReadsAndEnds(server: MemoryServer) returns (reply: Reply)
    requires server.Consistent() && server.Pages().Keys == {PageKey(1, 0), PageKey(2, 0)}
    requires server.cache.capacity == 1 && server.cache.entries == [] && server.cache.counters == map[]
    requires server.cache.free == 1
    modifies server.store`kinds, server.store.mem, server.cache
    ensures reply == Fault
  {
    server.store.HeldInPages(PageKey(1, 0));
    reply := server.Read(1, 0, 0, 0);
    assert PageKey(1, 0) in server.Pages();
    assert |server.cache.entries| == 1;
    reply := server.ReadAfterExit(1, 2, 0);
  }

  /** A process starts with one page. */
  method StartOne(server: MemoryServer, pid: int32)
    requires server.Consistent() && 0 <= pid && 1 <= server.Capacity() - |server.Pages()|
    requires forall k :: k in server.Pages() ==> k.pid != pid
    modifies server.store`kinds, server.store.mem
    ensures server.Consistent() && server.Pages().Keys == old(server.Pages()).Keys + {PageKey(pid, 0)}
    ensures |server.Pages()| == |old(server.Pages())| + 1
  {
    ghost var p := server.Pages();
    assert OwnsFirst(p, pid, 0);
    var reply := server.CreateInitialPages(pid, 1);
    assert NewKeys(pid, 0, 1) == {PageKey(pid, 0)};
    assert |server.Pages()| == |server.Pages().Keys| && |p| == |p.Keys|;
  }
}
