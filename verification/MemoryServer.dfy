/**
 The memory server: frames behind a write-through cache, and the flat memory it must look like from
 the outside, a map from (pid, page) to bytes.
 */
module MemoryServer {
  import opened Bytes
  import opened Rounding
  import opened PageTable
  import opened PageCache
  import opened FrameStore

  type Pages = map<PageKey, seq<byte>>

  datatype DataKind = Chars | Int | Metadata

  datatype Reply =
    | Data(bytes: seq<byte>)
    | ReadError
    | Written
    | WriteError
    | Started
    | Assigned
    | NoMemory
    | Finished
    | PageFreed
    | PageNotFreed
    | Flushed
    | Fault  // the server dereferences a null pointer while making room in its cache

  // ---------------------------------------------------------------- the flat memory

  /** `leerDato` and `escribirDato` check the offset alone, and allow it to equal the page size. */
  predicate OffsetAccepted(offset: int, frameSize: nat) {
    0 <= offset <= frameSize
  }

  /** The bytes a write really stores: always four for an integer, none for metadata. */
  function Stored(kind: DataKind, data: seq<byte>): seq<byte>
    requires kind == Int ==> 4 <= |data|
  {
    match kind
    case Chars => data
    case Int => data[..4]
    case Metadata => []
  }

  /** What the callers owe: a request whose offset is accepted stays inside its page. */
  predicate ReadInPage(offset: int, size: nat, frameSize: nat) {
    OffsetAccepted(offset, frameSize) ==> offset + size <= frameSize
  }

  predicate WriteInPage(kind: DataKind, offset: int, data: seq<byte>, frameSize: nat) {
    && (kind == Int ==> 4 <= |data|)
    && (OffsetAccepted(offset, frameSize) ==>
          offset + (match kind case Chars => |data| case Int => 4 case Metadata => 0) <= frameSize)
  }

  ghost predicate PageSized(p: Pages, frameSize: nat) {
    forall k :: k in p ==> |p[k]| == frameSize
  }

  ghost function FlatRead(p: Pages, frameSize: nat, k: PageKey, offset: int, size: nat): Reply
    requires PageSized(p, frameSize) && ReadInPage(offset, size, frameSize)
  {
    if OffsetAccepted(offset, frameSize) && k in p then Data(p[k][offset..offset + size]) else ReadError
  }

  ghost function FlatWrite(p: Pages, frameSize: nat, kind: DataKind, k: PageKey, offset: int,
                           data: seq<byte>): (r: (Pages, Reply))
    requires PageSized(p, frameSize) && WriteInPage(kind, offset, data, frameSize)
    ensures PageSized(r.0, frameSize) && r.0.Keys == p.Keys
  {
    if !OffsetAccepted(offset, frameSize) then (p, ReadError)
    else if k !in p then (p, WriteError)
    else (p[k := Splice(p[k], offset, Stored(kind, data))], Written)
  }

  /** The bytes from `offset` on have been replaced by `data`, and no others. */
  ghost predicate Patched(before: seq<byte>, after: seq<byte>, offset: int, data: seq<byte>) {
    && |after| == |before| && 0 <= offset && offset + |data| <= |before|
    && after[offset..offset + |data|] == data
    && after[..offset] == before[..offset] && after[offset + |data|..] == before[offset + |data|..]
  }

  lemma SplicePatches(before: seq<byte>, offset: nat, data: seq<byte>)
    requires offset + |data| <= |before|
    ensures Patched(before, Splice(before, offset, data), offset, data)
  {
  }

  /** What a write does to the flat memory, in bytes. */
  lemma FlatWriteStores(p: Pages, frameSize: nat, kind: DataKind, k: PageKey, offset: int, data: seq<byte>)
    requires PageSized(p, frameSize) && WriteInPage(kind, offset, data, frameSize)
    ensures var (q, reply) := FlatWrite(p, frameSize, kind, k, offset, data);
            reply == (if offset < 0 || frameSize < offset then ReadError else if k in p then Written else WriteError) &&
            (reply != Written ==> q == p) && q.Keys == p.Keys && (forall l :: l in p && l != k ==> q[l] == p[l]) &&
            (reply == Written && kind == Int ==> Patched(p[k], q[k], offset, data[..4])) &&
            (reply == Written && kind == Chars ==> Patched(p[k], q[k], offset, data)) &&
            (reply == Written && kind == Metadata ==> q == p)
  {
    if 0 <= offset <= frameSize && k in p {
      SplicePatches(p[k], offset, Stored(kind, data));
      if kind == Metadata { assert Splice(p[k], offset, []) == p[k]; }
    }
  }

  ghost function KeysOfPid(p: Pages, pid: int): set<PageKey> {
    set k | k in p && k.pid == pid
  }

  /** `pid` owns exactly the pages 0, ..., n - 1. */
  ghost predicate OwnsFirst(p: Pages, pid: int, n: nat) {
    forall page :: PageKey(pid, page) in p <==> 0 <= page < n
  }

  lemma OwnsOnce(p: Pages, pid: int, a: nat, b: nat)
    requires OwnsFirst(p, pid, a) && OwnsFirst(p, pid, b)
    ensures a == b
  {
    assert PageKey(pid, a) in p <==> 0 <= a < a;
    assert PageKey(pid, b) in p <==> 0 <= b < b;
  }

  // ---------------------------------------------------------------- the cache against the flat memory

  /** Every cached page is mapped and equal to its frame. */
  ghost predicate CoherentWith(es: seq<Entry>, p: Pages) {
    forall e :: e in es ==> e.key in p && p[e.key] == e.page
  }

  lemma OthersCoherent(es: seq<Entry>, pid: int, p: Pages)
    requires CoherentWith(es, p)
    ensures CoherentWith(Others(es, pid), p - KeysOfPid(p, pid))
  {
    OthersCount(es, pid, pid);
  }

  /** New pages do not disturb the cache. */
  lemma StillCoherent(es: seq<Entry>, p: Pages, p': Pages, added: set<PageKey>)
    requires CoherentWith(es, p) && Extends(p, p', added)
    ensures CoherentWith(es, p')
  {
  }

  /**
   A process taken from the memory behind the cache's back leaves the cache coherent unless something of it is
   cached.
   */
  lemma GoneCoherent(es: seq<Entry>, p: Pages, pid: int)
    requires CoherentWith(es, p)
    ensures CoherentWith(es, p - KeysOfPid(p, pid)) <==> forall e :: e in es ==> e.key.pid != pid
  {
    forall e | e in es
      ensures e.key in KeysOfPid(p, pid) <==> e.key.pid == pid
    {
    }
  }

  lemma {:induction false} PagesSized(m: seq<byte>, frames: nat, frameSize: nat, n: nat)
    requires |m| == At(frames, frameSize) && 8 * frames <= |m| && n <= frames
    ensures PageSized(PagesUpTo(m, frames, frameSize, n), frameSize)
  {
    if n == 0 {
    } else {
      PagesSized(m, frames, frameSize, n - 1);
    }
  }

  ghost predicate EntriesSized(es: seq<Entry>, frameSize: nat) {
    forall e :: e in es ==> |e.page| == frameSize
  }

  class MemoryServer {
    const store: FrameStore
    const cache: PageCache
    var stackSize: nat

    ghost predicate Valid()
      reads this, store, store.mem, cache
    {
      store.Valid() && cache.Valid() && EntriesSized(cache.entries, store.frameSize)
    }

    ghost function Pages(): Pages
      requires store.Shaped()
      reads store, store.mem
    {
      store.Pages()
    }

    /** The table is a function of (pid, page), numbered without gaps. */
    ghost predicate Tabled()
      reads this, store, store.mem, cache
    {
      Valid() && Unique(store.Table()) && Dense(store.Table()) && PageSized(Pages(), store.frameSize)
    }

    /** And the cache agrees with it. */
    ghost predicate Consistent()
      reads this, store, store.mem, cache
    {
      Tabled() && CoherentWith(cache.entries, Pages())
    }

    constructor (frames: nat, frameSize: nat, entries: nat, perProcess: nat)
      requires 0 < frames < 0x1000_0000 && 8 <= frameSize && 1 <= perProcess
      ensures Consistent() && fresh(store) && fresh(store.mem) && fresh(cache)
      ensures store.frames == frames && store.frameSize == frameSize
      ensures cache.capacity == entries && cache.quota == perProcess
      ensures Pages() == map[] && cache.entries == [] && cache.free == entries && cache.counters == map[]
    {
      store := new FrameStore(frames, frameSize);
      cache := new PageCache(entries, perProcess);
      stackSize := 0;
    }

    /** `leerDato`: checks the offset, then copies the requested bytes out of the page. */
    method Read(pid: nat, page: nat, offset: int, size: nat) returns (reply: Reply)
      requires Valid() && ReadInPage(offset, size, store.frameSize)
      modifies cache
      ensures reply == Fault <==> OffsetAccepted(offset, store.frameSize) && old(ReadFaults(PageKey(pid, page)))
      ensures reply != Fault ==> Valid() && (old(cache.Warm()) ==> cache.Warm())
      ensures old(Consistent()) && reply != Fault ==>
                Consistent() && reply == FlatRead(Pages(), store.frameSize, PageKey(pid, page), offset, size)
      ensures old(Consistent()) && reply != Fault ==>
                reply == if 0 <= offset <= store.frameSize && PageKey(pid, page) in Pages() then
                           Data(Pages()[PageKey(pid, page)][offset..offset + size])
                         else ReadError
      ensures reply.Data? ==> cache.entries != [] && cache.entries[0].key == PageKey(pid, page)
      ensures OffsetAccepted(offset, store.frameSize) && Cached(old(cache.entries), PageKey(pid, page)) ==>
                exists e :: e in old(cache.entries) && e.key == PageKey(pid, page) && |e.page| == store.frameSize &&
                  reply == Data(e.page[offset..offset + size])
      ensures Exact(old(cache.entries), old(cache.counters)) && reply != Fault ==> Exact(cache.entries, cache.counters)
    {
      if offset < 0 || offset > store.frameSize {
        return ReadError;
      }
      var found, fault := FetchPage(PageKey(pid, page));
      if fault {
        return Fault;
      }
      if !found {
        return ReadError;
      }
      reply := Data(cache.entries[0].page[offset..offset + size]);
    }

    /** A read of a page needs room that the cache cannot make. */
    ghost predicate ReadFaults(key: PageKey)
      requires store.Shaped()
      reads this, store, store.mem, cache
    {
      && Holds(store.Table(), key) && !Cached(cache.entries, key)
      && NoVictim(cache.entries, cache.counters, cache.free, cache.quota, key.pid)
    }

    /** `leerDatoInterna`: brings the page to the front of the cache, if it is cached or mapped. */
    method FetchPage(key: PageKey) returns (found: bool, fault: bool)
      requires Valid() && 0 <= key.pid && 0 <= key.page
      modifies cache
      ensures fault <==> old(ReadFaults(key))
      ensures !fault ==> Valid() && (old(cache.Warm()) ==> cache.Warm())
      ensures !fault ==> (found <==> Cached(old(cache.entries), key) || Holds(store.Table(), key))
      ensures !fault && CoherentWith(old(cache.entries), Pages()) ==> (found <==> key in Pages())
      ensures !fault && found ==>
                cache.entries != [] && cache.entries[0].key == key && cache.entries[0] in cache.entries
      ensures !fault && found && Cached(old(cache.entries), key) ==> cache.entries[0] in old(cache.entries)
      ensures !fault && CoherentWith(old(cache.entries), Pages()) && Unique(store.Table()) ==>
                CoherentWith(cache.entries, Pages())
      ensures !fault && Exact(old(cache.entries), old(cache.counters)) ==> Exact(cache.entries, cache.counters)
    {
      ghost var es := cache.entries;
      store.HeldInPages(key);
      var hit := cache.Touch(key);
      if hit {
        assert cache.entries[0] in es;
        return true, false;
      }
      var f := store.FindFrame(key.pid, key.page);
      if f == -1 {
        return false, false;
      }
      var content := store.ReadFrame(f);
      fault := Fill(key, content);
      return true, fault;
    }

    /** A miss brings the page into the cache. */
    method Fill(key: PageKey, content: seq<byte>) returns (fault: bool)
      requires Valid() && !Cached(cache.entries, key) && |content| == store.frameSize
      modifies cache
      ensures fault <==> NoVictim(old(cache.entries), old(cache.counters), old(cache.free), cache.quota, key.pid)
      ensures !fault ==> Valid() && cache.entries != [] && cache.entries[0] == Entry(key, content)
      ensures !fault ==> forall e :: e in cache.entries ==> e == Entry(key, content) || e in old(cache.entries)
      ensures !fault && Exact(old(cache.entries), old(cache.counters)) ==> Exact(cache.entries, cache.counters)
    {
      ghost var es, cs, free := cache.entries, cache.counters, cache.free;
      fault := cache.Insert(key, content);
      if !fault { RoomIsPart(es, cs, free, cache.quota, key.pid); }
    }

    /**
     `escribirDato`: checks the offset, then stores in memory and in the cached copy, if there is one. Of an integer the
     first four bytes are stored as they came, of characters all; no other byte of any page changes.
     */
    method Write(kind: DataKind, pid: nat, page: nat, offset: int, data: seq<byte>) returns (reply: Reply)
      requires Consistent() && WriteInPage(kind, offset, data, store.frameSize)
      modifies store.mem, cache
      ensures Consistent() && store.Table() == old(store.Table())
      ensures (Pages(), reply) == FlatWrite(old(Pages()), store.frameSize, kind, PageKey(pid, page), offset, data)
      ensures cache.Warm() == old(cache.Warm()) && cache.counters == old(cache.counters)
      ensures Exact(old(cache.entries), old(cache.counters)) ==> Exact(cache.entries, cache.counters)
      ensures reply == if offset < 0 || store.frameSize < offset then ReadError
                       else if PageKey(pid, page) in old(Pages()) then Written
                       else WriteError
      ensures reply != Written ==> Pages() == old(Pages())
      ensures reply == Written ==> Pages().Keys == old(Pages()).Keys && PageKey(pid, page) in Pages()
      ensures forall k :: k in Pages() && k in old(Pages()) && k != PageKey(pid, page) ==> Pages()[k] == old(Pages())[k]
      ensures reply == Written && kind == Int ==>
                Patched(old(Pages())[PageKey(pid, page)], Pages()[PageKey(pid, page)], offset, data[..4])
      ensures reply == Written && kind == Chars ==>
                Patched(old(Pages())[PageKey(pid, page)], Pages()[PageKey(pid, page)], offset, data)
      ensures reply == Written && kind == Metadata ==> Pages() == old(Pages())
    {
      FlatWriteStores(Pages(), store.frameSize, kind, PageKey(pid, page), offset, data);
      reply := StoreData(kind, pid, page, offset, data);
    }

    method StoreData(kind: DataKind, pid: nat, page: nat, offset: int, data: seq<byte>) returns (reply: Reply)
      requires Consistent() && WriteInPage(kind, offset, data, store.frameSize)
      modifies store.mem, cache
      ensures Consistent() && store.Table() == old(store.Table())
      ensures (Pages(), reply) == FlatWrite(old(Pages()), store.frameSize, kind, PageKey(pid, page), offset, data)
      ensures cache.Warm() == old(cache.Warm()) && cache.counters == old(cache.counters)
      ensures Exact(old(cache.entries), old(cache.counters)) ==> Exact(cache.entries, cache.counters)
    {
      if offset < 0 || offset > store.frameSize {
        return ReadError;
      }
      var key := PageKey(pid, page);
      var f := store.FindFrame(pid, page);
      store.HeldInPages(key);
      if f == -1 {
        return WriteError;
      }
      WriteMapped(key, f, offset, Stored(kind, data));
      return Written;
    }

    /** A write to a page that is mapped. */
    method WriteMapped(key: PageKey, f: nat, offset: nat, data: seq<byte>)
      requires Consistent() && offset + |data| <= store.frameSize
      requires f < store.frames && store.Table()[f].Owned() && store.Table()[f].Key() == key
      modifies store.mem, cache
      ensures Consistent() && store.Table() == old(store.Table())
      ensures key in old(Pages()) && Pages() == old(Pages())[key := Splice(old(Pages())[key], offset, data)]
      ensures cache.Warm() == old(cache.Warm()) && cache.counters == old(cache.counters)
      ensures Exact(old(cache.entries), old(cache.counters)) ==> Exact(cache.entries, cache.counters)
    {
      var hit := UsePage(key);
      StoreThrough(key, f, hit, offset, data);
    }

    /** A use of the page, if it is cached; the flat memory does not notice. */
    method UsePage(key: PageKey) returns (hit: bool)
      requires Consistent()
      modifies cache
      ensures Consistent() && cache.counters == old(cache.counters) && cache.free == old(cache.free)
      ensures |cache.entries| == |old(cache.entries)|
      ensures if hit then cache.entries != [] && cache.entries[0].key == key else !Cached(cache.entries, key)
      ensures forall q :: CountOf(cache.entries, q) == CountOf(old(cache.entries), q)
    {
      ghost var es := cache.entries;
      hit := cache.Touch(key);
      assert CoherentWith(cache.entries, Pages());
      assert EntriesSized(cache.entries, store.frameSize);
    }

    /** The store itself, in the frame and in the entry that the touch has put in front. */
    method StoreThrough(key: PageKey, f: nat, hit: bool, offset: nat, data: seq<byte>)
      requires Consistent() && offset + |data| <= store.frameSize
      requires f < store.frames && store.Table()[f].Owned() && store.Table()[f].Key() == key
      requires if hit then cache.entries != [] && cache.entries[0].key == key else !Cached(cache.entries, key)
      modifies store.mem, cache`entries
      ensures Consistent() && store.Table() == old(store.Table())
      ensures key in old(Pages()) && Pages() == old(Pages())[key := Splice(old(Pages())[key], offset, data)]
      ensures |cache.entries| == |old(cache.entries)| && cache.counters == old(cache.counters)
      ensures forall q :: CountOf(cache.entries, q) == CountOf(old(cache.entries), q)
    {
      ghost var p, es := Pages(), cache.entries;
      store.WriteFrame(f, offset, data);
      if hit {
        assert es[0] in es;
        cache.StoreFront(offset, data);
        FrontStored(es, cache.entries, cache.history, p, key, offset, data);
      } else {
        NotCachedStored(es, p, key, offset, data);
      }
    }

    /** How many pages the frames outside the table can hold. */
    ghost function Capacity(): int
      requires store.Shaped()
    {
      store.frames - store.Reserved()
    }

    /** Pages of a process as the table counts them and as the flat memory shows them. */
    lemma Ownership(pid: int)
      requires Tabled() && 0 <= pid
      ensures OwnsFirst(Pages(), pid, CountPid(store.Table(), pid))
      ensures CountPid(store.Table(), EMPTY) == Capacity() - |Pages()|
    {
      forall page: int
        ensures PageKey(pid, page) in Pages() <==> 0 <= page < CountPid(store.Table(), pid)
      {
        store.HeldInPages(PageKey(pid, page));
        assert Holds(store.Table(), PageKey(pid, page)) <==> 0 <= page < CountPid(store.Table(), pid);
      }
      EmptyFrames(store.mem[..], store.frames, store.frameSize);
    }

    /** Page numbers fit the word they are stored in. */
    lemma PagesFitWord(key: PageKey)
      requires Tabled() && key in Pages()
      ensures 0 <= key.page < 0x8000_0000
    {
      store.HeldInPages(key);
    }

    lemma OwnsNone(pid: int)
      requires Tabled() && 0 <= pid
      ensures OwnsFirst(Pages(), pid, 0) <==> CountPid(store.Table(), pid) == 0
      ensures CountPid(store.Table(), EMPTY) == Capacity() - |Pages()|
    {
      Ownership(pid);
      if OwnsFirst(Pages(), pid, 0) { OwnsOnce(Pages(), pid, CountPid(store.Table(), pid), 0); }
    }

    lemma NowSized()
      requires store.Shaped()
      ensures PageSized(Pages(), store.frameSize)
    {
      PagesSized(store.mem[..], store.frames, store.frameSize, store.frames);
    }

    /** `asignarPaginasDeHeap`: the next `n` page numbers of the process, or nothing at all. */
    method AssignHeapPages(pid: int32, n: nat) returns (reply: Reply)
      requires Tabled() && 0 <= pid
      modifies store`kinds, store.mem
      ensures Tabled() && (old(Consistent()) ==> Consistent())
      ensures reply == if n <= Capacity() - |old(Pages())| then Assigned else NoMemory
      ensures reply == NoMemory ==> Pages() == old(Pages())
      ensures reply == Assigned ==>
                exists from: nat :: OwnsFirst(old(Pages()), pid, from) &&
                  Extends(old(Pages()), Pages(), NewKeys(pid, from, n))
    {
      Ownership(pid);
      ghost var p, from := Pages(), CountPid(store.Table(), pid);
      var ok := ClaimNext(pid, n);
      if ok && CoherentWith(cache.entries, p) { StillCoherent(cache.entries, p, Pages(), NewKeys(pid, from, n)); }
      reply := if ok then Assigned else NoMemory;
    }

    method ClaimNext(pid: int32, n: nat) returns (ok: bool)
      requires Tabled() && 0 <= pid
      modifies store`kinds, store.mem
      ensures Tabled()
      ensures ok <==> n <= CountPid(old(store.Table()), EMPTY)
      ensures !ok ==> Pages() == old(Pages())
      ensures ok ==> Extends(old(Pages()), Pages(), NewKeys(pid, CountPid(old(store.Table()), pid), n))
    {
      Ownership(pid);
      ghost var t, m := store.Table(), store.mem[..];
      ghost var from := CountPid(t, pid);
      ghost var fs;
      ok, fs := store.AssignHeapPages(pid, n);
      if ok {
        AfterClaims(m, store.mem[..], store.frames, store.frameSize, pid, from, fs);
      } else {
        assert FreshIds(t, pid, from, n);
        AfterRefusal(m, store.mem[..], store.frames, store.frameSize);
      }
      NowSized();
    }

    /**
     `crearPaginasIniciales`. It numbers from 0, and a refusal takes all pages of the process away, so the server stays
     consistent exactly if the process owned none or nothing was to be claimed, and a refused process has nothing
     cached.
     */
    method CreateInitialPages(pid: int32, n: nat) returns (reply: Reply)
      requires Tabled() && 0 <= pid
      modifies store`kinds, store.mem
      ensures Valid()
      ensures reply == if n <= Capacity() - |old(Pages())| then Started else NoMemory
      ensures reply == NoMemory ==> Pages() == old(Pages()) - KeysOfPid(old(Pages()), pid)
      ensures reply == Started && (OwnsFirst(old(Pages()), pid, 0) || n == 0) ==>
                Extends(old(Pages()), Pages(), NewKeys(pid, 0, n))
      ensures reply == Started && OwnsFirst(old(Pages()), pid, 0) ==>
                PagesOfKind(store.Table(), store.kinds, pid, Stack) == LastPages(n, stackSize) &&
                PagesOfKind(store.Table(), store.kinds, pid, Code) == Range(0, n) - LastPages(n, stackSize)
      ensures Tabled() <==> reply == NoMemory || OwnsFirst(old(Pages()), pid, 0) || n == 0
      ensures old(Consistent()) ==>
                (Consistent() <==> if reply == Started then OwnsFirst(old(Pages()), pid, 0) || n == 0
                                   else forall e :: e in cache.entries ==> e.key.pid != pid)
    {
      OwnsNone(pid);
      ghost var p := Pages();
      var ok := ClaimInitial(pid, n);
      if CoherentWith(cache.entries, p) && Tabled() {
        if ok {
          StillCoherent(cache.entries, p, Pages(), NewKeys(pid, 0, n));
        } else {
          GoneCoherent(cache.entries, p, pid);
        }
      }
      reply := if ok then Started else NoMemory;
    }

    method ClaimInitial(pid: int32, n: nat) returns (ok: bool)
      requires Tabled() && 0 <= pid
      modifies store`kinds, store.mem
      ensures Valid()
      ensures ok <==> n <= CountPid(old(store.Table()), EMPTY)
      ensures !ok ==> Tabled() && Pages() == old(Pages()) - KeysOfPid(old(Pages()), pid)
      ensures ok && (CountPid(old(store.Table()), pid) == 0 || n == 0) ==>
                Tabled() && Extends(old(Pages()), Pages(), NewKeys(pid, 0, n))
      ensures ok && CountPid(old(store.Table()), pid) != 0 && n != 0 ==> !Tabled()
      ensures ok && CountPid(old(store.Table()), pid) == 0 ==>
                PagesOfKind(store.Table(), store.kinds, pid, Stack) == LastPages(n, stackSize) &&
                PagesOfKind(store.Table(), store.kinds, pid, Code) == Range(0, n) - LastPages(n, stackSize)
    {
      ghost var m := store.mem[..];
      ghost var fs;
      ok, fs := store.CreateInitialPages(pid, n, stackSize);
      if ok {
        AfterInitialClaims(m, store.mem[..], store.frames, store.frameSize, pid, fs);
      } else {
        AfterRemoval(m, store.mem[..], store.frames, store.frameSize, pid);
      }
      NowSized();
    }

    /** `finalizarProgramaEnMemoria`: the process leaves the cache and then the table. */
    method FinishProcess(pid: nat) returns (reply: Reply)
      requires Tabled()
      modifies store`kinds, store.mem, cache
      ensures Tabled() && (old(Consistent()) ==> Consistent()) && reply == Finished
      ensures Pages() == old(Pages()) - KeysOfPid(old(Pages()), pid)
      ensures forall k :: k in Pages() <==> k in old(Pages()) && k.pid != pid
      ensures cache.entries == Others(old(cache.entries), pid) && cache.free == old(cache.free)
      ensures Exact(old(cache.entries), old(cache.counters)) ==> Exact(cache.entries, cache.counters)
    {
      ghost var m, es, p := store.mem[..], cache.entries, Pages();
      cache.Purge(pid);
      store.RemoveProcess(pid);
      AfterRemoval(m, store.mem[..], store.frames, store.frameSize, pid);
      if CoherentWith(es, p) { OthersCoherent(es, pid, p); }
      OthersCount(es, pid, pid);
      NowSized();
      return Finished;
    }

    /**
     `liberarPagina`: empties the frame of one page and does not look at the cache. The server stays
     consistent exactly when there was no such page, or it was not cached and was the last of its process.
     */
    method FreePage(pid: int32, page: int32) returns (reply: Reply)
      requires Tabled() && 0 <= pid && 0 <= page
      modifies store`kinds, store.mem
      ensures Valid()
      ensures reply == if PageKey(pid, page) in old(Pages()) then PageFreed else PageNotFreed
      ensures Pages() == old(Pages()) - {PageKey(pid, page)}
      ensures Tabled() <==> PageKey(pid, page) !in old(Pages()) || PageKey(pid, page + 1) !in old(Pages())
      ensures old(Consistent()) ==>
                (Consistent() <==>
                 (PageKey(pid, page) !in old(Pages()) ||
                  (!Cached(cache.entries, PageKey(pid, page)) && PageKey(pid, page + 1) !in old(Pages()))))
    {
      var key := PageKey(pid, page);
      ghost var t, m, p := store.Table(), store.mem[..], Pages();
      OwnershipAt(pid, page);
      var ok, f := store.WriteTable(pid, page, true, Free);
      if ok {
        AfterRelease(m, store.mem[..], store.frames, store.frameSize, f, key);
        if CoherentWith(cache.entries, p) { StaleExactly(cache.entries, p, key); }
        assert Pages() == p - {key};
      }
      NowSized();
      reply := if ok then PageFreed else PageNotFreed;
    }

    /** The console's `flush`. */
    method Flush() returns (reply: Reply)
      requires Consistent()
      modifies cache`entries, cache`free
      ensures Consistent() && reply == Flushed && cache.entries == [] && cache.free == cache.capacity
      ensures Exact(old(cache.entries), cache.counters) ==>
                (Exact(cache.entries, cache.counters) <==> old(cache.entries) == [])
    {
      cache.Flush();
      return Flushed;
    }

    /** After a flush a process whose quota had been used up brings the server down with its next read. */
    method ReadAfterFlush(pid: nat, page: nat) returns (reply: Reply)
      requires Consistent() && AtQuota(cache.counters, pid, cache.quota) && PageKey(pid, page) in Pages()
      modifies cache
      ensures reply == Fault
    {
      var flushed := Flush();
      store.HeldInPages(PageKey(pid, page));
      reply := Read(pid, page, 0, 0);
    }

    /** One page of a process as the table search sees it and as the flat memory shows it. */
    lemma OwnershipAt(pid: nat, page: nat)
      requires Tabled()
      ensures PageKey(pid, page) in Pages() <==> page < CountPid(store.Table(), pid)
      ensures PageKey(pid, page + 1) in Pages() <==> page + 1 < CountPid(store.Table(), pid)
      ensures PageKey(pid, page) in Pages() <==>
                exists f :: 0 <= f < store.frames && Wanted(store.Table()[f], true, pid, page)
    {
      store.HeldInPages(PageKey(pid, page));
      store.HeldInPages(PageKey(pid, page + 1));
      if Holds(store.Table(), PageKey(pid, page)) {
        assert Wanted(store.Table()[FrameOf(store.Table(), PageKey(pid, page))], true, pid, page);
      }
    }

    /**
     Slots taken by a process that ends are lost: once they were the last, and only its pages were
     cached, the next read of an uncached page brings the server down.
     */
    method ReadAfterExit(gone: nat, pid: nat, page: nat) returns (reply: Reply)
      requires Consistent() && Exact(cache.entries, cache.counters) && pid != gone
      requires cache.free == 0 && forall e :: e in cache.entries ==> e.key.pid == gone
      requires PageKey(pid, page) in Pages()
      modifies store`kinds, store.mem, cache
      ensures reply == Fault
    {
      ghost var es := cache.entries;
      var finished := FinishProcess(gone);
      OthersCount(es, gone, pid);
      OthersNone(es, gone);
      store.HeldInPages(PageKey(pid, page));
      reply := Read(pid, page, 0, 0);
    }

    /** An integer that is stored is read back as it was, byte by byte. */
    method WriteThenRead(pid: nat, page: nat, offset: nat, data: seq<byte>) returns (reply: Reply)
      requires Consistent() && 4 <= |data| && offset + 4 <= store.frameSize && PageKey(pid, page) in Pages()
      modifies store.mem, cache
      ensures reply == Fault || (Consistent() && reply == Data(data[..4]))
      ensures old(cache.Warm()) && Exact(old(cache.entries), old(cache.counters)) ==> reply == Data(data[..4])
    {
      var written := Write(Int, pid, page, offset, data);
      ghost var es, cs, free := cache.entries, cache.counters, cache.free;
      reply := Read(pid, page, offset, 4);
      if Exact(es, cs) && NoVictim(es, cs, free, cache.quota, pid) {
        FaultOnlyCold(es, cs, free, cache.quota, pid);
      }
    }

    /** A released page that was cached is still served, from its stale copy, though the flat memory has lost it. */
    method ReadReleased(pid: int32, page: int32, offset: nat, size: nat) returns (reply: Reply)
      requires Consistent() && 0 <= pid && 0 <= page && offset + size <= store.frameSize
      requires PageKey(pid, page) in Pages() && Cached(cache.entries, PageKey(pid, page))
      modifies store`kinds, store.mem, cache
      ensures PageKey(pid, page) !in Pages()
      ensures reply == Data(old(Pages())[PageKey(pid, page)][offset..offset + size])
    {
      ghost var p := Pages();
      var freed := FreePage(pid, page);
      reply := Read(pid, page, offset, size);
      assert CoherentWith(old(cache.entries), p);
    }
  }

  /** Dropping a page from the memory behind the cache's back leaves the cache coherent unless it holds that page. */
  lemma StaleExactly(es: seq<Entry>, p: Pages, key: PageKey)
    requires CoherentWith(es, p)
    ensures CoherentWith(es, p - {key}) <==> !Cached(es, key)
  {
    if Cached(es, key) {
      var i :| 0 <= i < |es| && es[i].key == key;
      assert es[i] in es;
    } else {
      assert forall e :: e in es ==> e.key != key;
    }
  }

  lemma NotCachedStored(es: seq<Entry>, p: Pages, key: PageKey, offset: nat, data: seq<byte>)
    requires CoherentWith(es, p) && !Cached(es, key) && key in p && offset + |data| <= |p[key]|
    ensures CoherentWith(es, p[key := Splice(p[key], offset, data)])
  {
    assert forall e :: e in es ==> e.key != key;
  }

  /**
   Writing through keeps the cache coherent: the front entry changes like its page, and no other entry has its
   key.
   */
  lemma FrontStored(es: seq<Entry>, es': seq<Entry>, history: seq<PageKey>, p: Pages, key: PageKey, offset: nat,
                    data: seq<byte>)
    requires CoherentWith(es, p) && ByRecency(es, history) && es != [] && es[0].key == key
    requires key in p && offset + |data| <= |p[key]| && |es[0].page| == |p[key]|
    requires es' == es[0 := Entry(key, Splice(es[0].page, offset, data))]
    ensures CoherentWith(es', p[key := Splice(p[key], offset, data)])
    ensures forall e :: e in es' ==> e == es'[0] || e in es
  {
    assert es[0] in es;
    forall e | e in es'
      ensures e == es'[0] || (e in es && e.key != key)
    {
      var i :| 0 <= i < |es'| && es'[i] == e;
      if i != 0 { assert LastUse(history, es[i].key) < LastUse(history, es[0].key); }
    }
  }
}
