/**
 The page cache of the memory server: a list ordered from most to least recently used, a global
 number of slots and a quota per process. It stores whole pages and is written through.
 */
module PageCache {
  import opened Bytes
  import opened PageTable

  datatype Entry = Entry(key: PageKey, page: seq<byte>)

  /** `contadorAuxCache`: how many cached pages the server believes each process has, by pid. */
  type Counters = map<int, nat>

  // ---------------------------------------------------------------- recency

  /** When `k` was last used, counting uses from 1; 0 if it never was. */
  function LastUse(history: seq<PageKey>, k: PageKey): (when: nat)
    ensures when <= |history|
  {
    if history == [] then 0
    else if history[|history| - 1] == k then |history|
    else LastUse(history[..|history| - 1], k)
  }

  lemma LastUseSnoc(history: seq<PageKey>, k: PageKey, other: PageKey)
    ensures LastUse(history + [k], other) == if other == k then |history| + 1 else LastUse(history, other)
  {
    assert (history + [k])[..|history|] == history;
  }

  /** The list runs from the latest use to the earliest; hence no page is cached twice. */
  ghost predicate ByRecency(es: seq<Entry>, history: seq<PageKey>) {
    && (forall i :: 0 <= i < |es| ==> 0 < LastUse(history, es[i].key))
    && (forall i, j :: 0 <= i < j < |es| ==> LastUse(history, es[j].key) < LastUse(history, es[i].key))
  }

  predicate Cached(es: seq<Entry>, k: PageKey) {
    exists i :: 0 <= i < |es| && es[i].key == k
  }

  function RemoveAt<T>(s: seq<T>, i: nat): (r: seq<T>)
    requires i < |s|
    ensures |r| == |s| - 1
    ensures forall j :: 0 <= j < |r| ==> r[j] == s[if j < i then j else j + 1]
  {
    s[..i] + s[i + 1..]
  }

  lemma RemoveKeepsOrder(es: seq<Entry>, history: seq<PageKey>, i: nat)
    requires ByRecency(es, history) && i < |es|
    ensures ByRecency(RemoveAt(es, i), history)
    ensures !Cached(RemoveAt(es, i), es[i].key)
  {
  }

  lemma RemovedPutFirst(es: seq<Entry>, i: nat)
    requires i < |es|
    ensures forall e :: e in [es[i]] + RemoveAt(es, i) <==> e in es
  {
    assert es == es[..i] + [es[i]] + es[i + 1..];
  }

  /** Using a page that is not elsewhere in the list, by putting it first, keeps the list ordered. */
  lemma UseKeepsOrder(es: seq<Entry>, history: seq<PageKey>, e: Entry)
    requires ByRecency(es, history) && !Cached(es, e.key)
    ensures ByRecency([e] + es, history + [e.key])
  {
    var es' := [e] + es;
    forall i | 0 <= i < |es'|
      ensures LastUse(history + [e.key], es'[i].key)
              == if i == 0 then |history| + 1 else LastUse(history, es[i - 1].key)
    {
      LastUseSnoc(history, e.key, es'[i].key);
    }
  }

  // ---------------------------------------------------------------- accounting

  function CountOf(es: seq<Entry>, pid: int): (n: nat)
    ensures n <= |es|
  {
    if es == [] then 0 else (if es[0].key.pid == pid then 1 else 0) + CountOf(es[1..], pid)
  }

  lemma {:induction false} CountConcat(a: seq<Entry>, b: seq<Entry>, pid: int)
    ensures CountOf(a + b, pid) == CountOf(a, pid) + CountOf(b, pid)
  {
    if a == [] {
      assert a + b == b;
    } else {
      assert (a + b)[1..] == a[1..] + b;
      CountConcat(a[1..], b, pid);
    }
  }

  lemma CountPrefix(es: seq<Entry>, i: nat, pid: int)
    requires i < |es|
    ensures CountOf(es[..i + 1], pid) == CountOf(es[..i], pid) + if es[i].key.pid == pid then 1 else 0
    ensures CountOf(es[..i + 1], pid) <= CountOf(es, pid)
  {
    assert es[..i + 1] == es[..i] + [es[i]];
    CountConcat(es[..i], [es[i]], pid);
    assert es == es[..i + 1] + es[i + 1..];
    CountConcat(es[..i + 1], es[i + 1..], pid);
  }

  lemma CountRemoved(es: seq<Entry>, i: nat, pid: int)
    requires i < |es|
    ensures CountOf(es, pid) == CountOf(RemoveAt(es, i), pid) + if es[i].key.pid == pid then 1 else 0
  {
    CountConcat(es[..i], es[i..], pid);
    CountConcat(es[..i], es[i + 1..], pid);
    assert es == es[..i] + es[i..];
    assert es[i..][1..] == es[i + 1..];
  }

  lemma CountNone(es: seq<Entry>, pid: int)
    ensures CountOf(es, pid) == 0 <==> forall i :: 0 <= i < |es| ==> es[i].key.pid != pid
  {
    if es != [] {
      CountNone(es[1..], pid);
      assert forall i :: 1 <= i < |es| ==> es[i] == es[1..][i - 1];
    }
  }

  /** The least recently used entry of `pid`: its last one in the list; |es| if it has none. */
  function LastOf(es: seq<Entry>, pid: int): (i: nat)
    ensures i <= |es|
    ensures i < |es| ==> es[i].key.pid == pid
    ensures forall j :: 0 <= j < |es| && es[j].key.pid == pid ==> j <= i < |es|
  {
    if es == [] then 0
    else if es[|es| - 1].key.pid == pid then |es| - 1
    else
      var i := LastOf(es[..|es| - 1], pid);
      if i == |es| - 1 then |es| else i
  }

  /** The entry at which a scan has met `n` entries of `pid`, when these are all it has, is the last of them. */
  lemma LastOfAt(es: seq<Entry>, pid: int, i: nat)
    requires i < |es| && es[i].key.pid == pid && CountOf(es[..i + 1], pid) == CountOf(es, pid)
    ensures LastOf(es, pid) == i
  {
    assert es == es[..i + 1] + es[i + 1..];
    CountConcat(es[..i + 1], es[i + 1..], pid);
    CountNone(es[i + 1..], pid);
    assert forall j :: i < j < |es| ==> es[j] == es[i + 1..][j - i - 1];
  }

  /** No counter above the quota, none below the truth; every cached page is counted. */
  ghost predicate Accounted(es: seq<Entry>, cs: Counters, quota: nat) {
    && (forall pid :: pid in cs ==> CountOf(es, pid) <= cs[pid] <= quota)
    && (forall i :: 0 <= i < |es| ==> es[i].key.pid in cs)
  }

  /** The counters tell the truth. */
  ghost predicate Exact(es: seq<Entry>, cs: Counters) {
    forall pid :: pid in cs ==> cs[pid] == CountOf(es, pid)
  }

  /** `pid` is believed to use its whole quota. */
  predicate AtQuota(cs: Counters, pid: int, quota: nat) {
    pid in cs && cs[pid] == quota
  }

  /**
   When making room is fatal: the quota is believed used up but the scan runs off the list, or the
   least recently used page of an empty list is wanted.
   */
  predicate NoVictim(es: seq<Entry>, cs: Counters, free: nat, quota: nat, pid: int) {
    if AtQuota(cs, pid, quota) then CountOf(es, pid) < quota else free == 0 && es == []
  }

  /** What is left of the list once room has been made for a page of `pid`. */
  function MadeRoom(es: seq<Entry>, cs: Counters, free: nat, quota: nat, pid: int): seq<Entry>
    requires 1 <= quota && !NoVictim(es, cs, free, quota, pid)
  {
    if AtQuota(cs, pid, quota) then
      CountNone(es, pid);
      RemoveAt(es, LastOf(es, pid))
    else if free == 0 then es[..|es| - 1]
    else es
  }

  lemma RoomIsPart(es: seq<Entry>, cs: Counters, free: nat, quota: nat, pid: int)
    requires 1 <= quota && !NoVictim(es, cs, free, quota, pid)
    ensures forall e :: e in MadeRoom(es, cs, free, quota, pid) ==> e in es
  {
    CountNone(es, pid);
  }

  lemma StaysBeside(es: seq<Entry>, gone: nat, i: nat)
    requires gone < |es| && i < |es|
    ensures i != gone ==> es[i] in RemoveAt(es, gone)
  {
    if i != gone {
      assert RemoveAt(es, gone)[if i < gone then i else i - 1] == es[i];
    }
  }

  /** The page given up is the least recently used of its process, or of all. */
  lemma VictimIsLeastRecent(es: seq<Entry>, cs: Counters, free: nat, quota: nat, pid: int, history: seq<PageKey>,
                            e: Entry)
    requires 1 <= quota && !NoVictim(es, cs, free, quota, pid) && ByRecency(es, history)
    requires e in es && e !in MadeRoom(es, cs, free, quota, pid)
    ensures AtQuota(cs, pid, quota) ==> e.key.pid == pid
    ensures forall other :: other in es && other != e && (AtQuota(cs, pid, quota) ==> other.key.pid == pid) ==>
              LastUse(history, e.key) < LastUse(history, other.key)
  {
    var victim := if AtQuota(cs, pid, quota) then LastOf(es, pid) else |es| - 1;
    var i :| 0 <= i < |es| && es[i] == e;
    if AtQuota(cs, pid, quota) {
      CountNone(es, pid);
      StaysBeside(es, victim, i);
    }
    assert es[victim] == e;
  }

  /** One page more for `pid`, in a new counter if it has none. */
  function Promise(cs: Counters, pid: int): Counters {
    cs[pid := if pid in cs then cs[pid] + 1 else 1]
  }

  function Decrement(cs: Counters, pid: int): Counters {
    if pid in cs && 0 < cs[pid] then cs[pid := cs[pid] - 1] else cs
  }

  /** The counters once room has been made for a page of `pid`. */
  function CountersAfter(es: seq<Entry>, cs: Counters, free: nat, quota: nat, pid: int): Counters {
    if AtQuota(cs, pid, quota) then cs
    else if free == 0 && es != [] then Decrement(Promise(cs, pid), es[|es| - 1].key.pid)
    else Promise(cs, pid)
  }

  /** How the number of cached pages of each process changes when a page of `pid` is put into the room made for it. */
  lemma CountAfter(es: seq<Entry>, cs: Counters, free: nat, quota: nat, e: Entry, q: int)
    requires Accounted(es, cs, quota) && 1 <= quota && !NoVictim(es, cs, free, quota, e.key.pid)
    ensures CountOf([e] + MadeRoom(es, cs, free, quota, e.key.pid), q) ==
            CountOf(es, q)
            + (if q == e.key.pid && !AtQuota(cs, e.key.pid, quota) then 1 else 0)
            - (if free == 0 && !AtQuota(cs, e.key.pid, quota) && q == es[|es| - 1].key.pid then 1 else 0)
  {
    var room := MadeRoom(es, cs, free, quota, e.key.pid);
    assert ([e] + room)[1..] == room;
    if AtQuota(cs, e.key.pid, quota) {
      CountNone(es, e.key.pid);
      CountRemoved(es, LastOf(es, e.key.pid), q);
    } else if free == 0 {
      assert room == RemoveAt(es, |es| - 1);
      CountRemoved(es, |es| - 1, q);
    }
  }

  /** Accounting survives, and exact counters stay exact. */
  lemma RoomKeepsAccounts(es: seq<Entry>, cs: Counters, free: nat, quota: nat, e: Entry)
    requires Accounted(es, cs, quota) && 1 <= quota && !NoVictim(es, cs, free, quota, e.key.pid)
    ensures Accounted([e] + MadeRoom(es, cs, free, quota, e.key.pid),
                      CountersAfter(es, cs, free, quota, e.key.pid), quota)
    ensures Exact(es, cs) ==>
              Exact([e] + MadeRoom(es, cs, free, quota, e.key.pid), CountersAfter(es, cs, free, quota, e.key.pid))
  {
    var es' := [e] + MadeRoom(es, cs, free, quota, e.key.pid);
    var cs' := CountersAfter(es, cs, free, quota, e.key.pid);
    CountNone(es, e.key.pid);
    if es != [] { CountNone(es, es[|es| - 1].key.pid); }
    forall q | q in cs'
      ensures CountOf(es', q) <= cs'[q] <= quota
      ensures Exact(es, cs) ==> cs'[q] == CountOf(es', q)
    {
      CountAfter(es, cs, free, quota, e, q);
    }
  }

  /** With truthful counters, making room is fatal only when no slot is free and nothing is cached. */
  lemma FaultOnlyCold(es: seq<Entry>, cs: Counters, free: nat, quota: nat, pid: int)
    requires Exact(es, cs) && NoVictim(es, cs, free, quota, pid)
    ensures free == 0 && es == []
  {
  }

  class PageCache {
    const capacity: nat
    const quota: nat
    var entries: seq<Entry>
    var free: nat
    var counters: Counters
    ghost var history: seq<PageKey>

    ghost predicate Valid()
      reads this
    {
      && 1 <= quota && free + |entries| <= capacity
      && ByRecency(entries, history)
      && Accounted(entries, counters, quota)
    }

    /** A read can always make room: some slot is free or some page can be given up. */
    predicate Warm()
      reads this
    {
      0 < free || entries != []
    }

    constructor (capacity: nat, quota: nat)
      requires 1 <= quota
      ensures Valid() && entries == [] && counters == map[] && free == capacity
      ensures this.capacity == capacity && this.quota == quota
    {
      this.capacity, this.quota := capacity, quota;
      entries, free, counters, history := [], capacity, map[], [];
    }

    /** `leerCache`: a hit moves the entry to the front. */
    method Touch(key: PageKey) returns (hit: bool)
      requires Valid()
      modifies this
      ensures Valid() && free == old(free) && counters == old(counters)
      ensures hit <==> Cached(old(entries), key)
      ensures hit ==> |entries| == |old(entries)| && entries[0].key == key && history == old(history) + [key]
      ensures hit ==> exists i :: 0 <= i < |entries| && entries == [old(entries)[i]] + RemoveAt(old(entries), i)
      ensures forall e :: e in entries <==> e in old(entries)
      ensures !hit ==> entries == old(entries) && history == old(history)
      ensures forall q :: CountOf(entries, q) == CountOf(old(entries), q)
    {
      var i := 0;
      while i < |entries|
        invariant 0 <= i <= |entries|
        invariant forall j :: 0 <= j < i ==> entries[j].key != key
      {
        var e := entries[i];
        if e.key == key {
          RemoveKeepsOrder(entries, history, i);
          UseKeepsOrder(RemoveAt(entries, i), history, e);
          forall q
            ensures CountOf([e] + RemoveAt(entries, i), q) == CountOf(entries, q)
          {
            CountRemoved(entries, i, q);
            assert ([e] + RemoveAt(entries, i))[1..] == RemoveAt(entries, i);
          }
          RemovedPutFirst(entries, i);
          entries := RemoveAt(entries, i);
          entries := [e] + entries;
          history := history + [key];
          return true;
        }
        i := i + 1;
      }
      return false;
    }

    /** A write-through store into the entry at the front. */
    method StoreFront(offset: nat, data: seq<byte>)
      requires Valid() && entries != [] && offset + |data| <= |entries[0].page|
      modifies this`entries
      ensures Valid()
      ensures entries == old(entries)[0 := Entry(old(entries)[0].key, Splice(old(entries)[0].page, offset, data))]
      ensures forall q :: CountOf(entries, q) == CountOf(old(entries), q)
    {
      entries := [Entry(entries[0].key, Splice(entries[0].page, offset, data))] + entries[1..];
      assert entries == old(entries)[0 := entries[0]];
    }

    /** `desalojarLocalmente`: walks the list until it has met a full quota of pages of `pid`, and drops that entry. */
    method EvictOwn(pid: int) returns (fault: bool)
      requires 1 <= quota && |entries| <= capacity
      modifies this`entries
      ensures fault <==> CountOf(old(entries), pid) < quota
      ensures fault ==> entries == old(entries)
      ensures !fault && CountOf(old(entries), pid) == quota ==>
                LastOf(old(entries), pid) < |old(entries)| &&
                entries == RemoveAt(old(entries), LastOf(old(entries), pid))
    {
      ghost var es := entries;
      var i, met := 0, 0;
      while i < capacity
        invariant 0 <= i <= |entries| && entries == es
        invariant met == CountOf(es[..i], pid) && met < quota
      {
        if i == |entries| {
          assert es[..i] == es;
          return true;
        }
        CountPrefix(es, i, pid);
        if entries[i].key.pid == pid {
          met := met + 1;
        }
        if met == quota {
          if CountOf(es, pid) == quota { LastOfAt(es, pid, i); }
          entries := RemoveAt(entries, i);
          return false;
        }
        i := i + 1;
      }
      assert es[..i] == es;
      return true;
    }

    /** `desalojarGlobalmente`: takes the last entry off the list and off the counter of its process. */
    method EvictAny() returns (fault: bool)
      modifies this`entries, this`counters
      ensures fault <==> old(entries) == []
      ensures !fault ==> entries == old(entries)[..|old(entries)| - 1]
      ensures !fault ==> counters == Decrement(old(counters), old(entries)[|old(entries)| - 1].key.pid)
    {
      if entries == [] {
        return true;
      }
      var victim := entries[|entries| - 1];
      counters := Decrement(counters, victim.key.pid);
      entries := entries[..|entries| - 1];
      return false;
    }

    /** `eliminarRegistroCacheLRU`: makes room for one page of `pid`. */
    method MakeRoom(pid: int) returns (fault: bool)
      requires Valid()
      modifies this`entries, this`counters, this`free
      ensures fault <==> NoVictim(old(entries), old(counters), old(free), quota, pid)
      ensures !fault ==> entries == MadeRoom(old(entries), old(counters), old(free), quota, pid)
      ensures !fault ==> counters == CountersAfter(old(entries), old(counters), old(free), quota, pid)
      ensures !fault ==> free == if old(free) == 0 then 0 else old(free) - 1
    {
      fault := false;
      if 0 < free {
        if pid in counters {
          if counters[pid] == quota {
            fault := EvictOwn(pid);
          } else {
            counters := counters[pid := counters[pid] + 1];
          }
        } else {
          counters := counters[pid := 1];
        }
        free := free - 1;
      } else if pid in counters {
        if counters[pid] == quota {
          fault := EvictOwn(pid);
        } else {
          counters := counters[pid := counters[pid] + 1];
          fault := EvictAny();
        }
      } else {
        counters := counters[pid := 1];
        fault := EvictAny();
      }
    }

    /**
     `escribirCache`: caches a page just read from memory, in front of all others. Nothing is given up while a slot is
     free and the quota not used up; a page given up for the quota while a slot is free loses that slot for good.
     */
    method Insert(key: PageKey, page: seq<byte>) returns (fault: bool)
      requires Valid() && !Cached(entries, key)
      modifies this
      ensures fault <==> NoVictim(old(entries), old(counters), old(free), quota, key.pid)
      ensures !fault ==> Valid() && Warm() && history == old(history) + [key]
      ensures !fault ==>
                entries == [Entry(key, page)] + MadeRoom(old(entries), old(counters), old(free), quota, key.pid)
      ensures !fault && Exact(old(entries), old(counters)) ==> Exact(entries, counters)
      ensures !fault ==>
                free + |entries|
                == old(free + |entries|) - if 0 < old(free) && AtQuota(old(counters), key.pid, quota) then 1 else 0
      ensures 0 < old(free) && !AtQuota(old(counters), key.pid, quota) ==> entries == [Entry(key, page)] + old(entries)
    {
      ghost var es, cs, f := entries, counters, free;
      fault := MakeRoom(key.pid);
      if fault {
        return;
      }
      RoomKeepsAccounts(es, cs, f, quota, Entry(key, page));
      RoomKeepsOrder(es, cs, f, quota, key, history);
      UseKeepsOrder(entries, history, Entry(key, page));
      entries := [Entry(key, page)] + entries;
      history := history + [key];
    }

    /** `limpiarCachePorPid`: forgets every page of `pid` and its counter, but gives no slot back. */
    method Purge(pid: int)
      requires Valid()
      modifies this`entries, this`counters
      ensures Valid() && free == old(free)
      ensures entries == Others(old(entries), pid) && counters == old(counters) - {pid}
      ensures Exact(old(entries), old(counters)) ==> Exact(entries, counters)
    {
      ghost var es := entries;
      var i, total := 0, |entries|;
      while i < total
        invariant 0 <= i <= total == |entries|
        invariant Others(entries, pid) == Others(es, pid)
        invariant forall j :: 0 <= j < i ==> entries[j].key.pid != pid
        invariant |entries| <= |es| && ByRecency(entries, history) && counters == old(counters)
        decreases total - i
      {
        var e := entries[i];
        if e.key.pid == pid {
          RemoveKeepsOrder(entries, history, i);
          OthersRemoved(entries, i, pid);
          entries := RemoveAt(entries, i);
          i, total := i - 1, total - 1;
        }
        i := i + 1;
      }
      OthersAll(entries, pid);
      counters := counters - {pid};
      OthersAccounts(es, old(counters), quota, pid);
    }

    /** `flushCache`: empties the list and frees every slot, but leaves the counters of the processes. */
    method Flush()
      requires Valid()
      modifies this`entries, this`free
      ensures Valid() && entries == [] && free == capacity
      ensures Exact(old(entries), counters) ==> (Exact(entries, counters) <==> old(entries) == [])
    {
      ghost var es := entries;
      while entries != []
        invariant |entries| <= |es|
        decreases |entries|
      {
        entries := entries[1..];
      }
      free := capacity;
      if es != [] { CountNone(es, es[0].key.pid); }
    }
  }

  lemma RoomKeepsOrder(es: seq<Entry>, cs: Counters, free: nat, quota: nat, key: PageKey, history: seq<PageKey>)
    requires 1 <= quota && !NoVictim(es, cs, free, quota, key.pid)
    requires ByRecency(es, history) && !Cached(es, key)
    ensures ByRecency(MadeRoom(es, cs, free, quota, key.pid), history)
    ensures !Cached(MadeRoom(es, cs, free, quota, key.pid), key)
  {
    if AtQuota(cs, key.pid, quota) {
      CountNone(es, key.pid);
      RemoveKeepsOrder(es, history, LastOf(es, key.pid));
    } else if free == 0 {
      assert es[..|es| - 1] == RemoveAt(es, |es| - 1);
      RemoveKeepsOrder(es, history, |es| - 1);
    }
  }

  /** The entries that do not belong to `pid`, in order. */
  function Others(es: seq<Entry>, pid: int): seq<Entry> {
    if es == [] then []
    else (if es[0].key.pid == pid then [] else [es[0]]) + Others(es[1..], pid)
  }

  lemma OthersRemoved(es: seq<Entry>, i: nat, pid: int)
    requires i < |es| && es[i].key.pid == pid
    ensures Others(RemoveAt(es, i), pid) == Others(es, pid)
  {
    if i == 0 {
      assert RemoveAt(es, 0) == es[1..];
    } else {
      assert RemoveAt(es, i)[1..] == RemoveAt(es[1..], i - 1);
      OthersRemoved(es[1..], i - 1, pid);
    }
  }

  lemma OthersAll(es: seq<Entry>, pid: int)
    requires forall j :: 0 <= j < |es| ==> es[j].key.pid != pid
    ensures Others(es, pid) == es
  {
  }

  lemma {:induction false} OthersNone(es: seq<Entry>, pid: int)
    requires forall e :: e in es ==> e.key.pid == pid
    ensures Others(es, pid) == []
  {
    if es == [] {
    } else {
      assert es[0] in es;
      assert forall e :: e in es[1..] ==> e in es;
      OthersNone(es[1..], pid);
    }
  }

  lemma {:induction false} OthersCount(es: seq<Entry>, pid: int, q: int)
    ensures CountOf(Others(es, pid), q) == if q == pid then 0 else CountOf(es, q)
    ensures forall e :: e in Others(es, pid) <==> e in es && e.key.pid != pid
  {
    if es == [] {
    } else {
      OthersCount(es[1..], pid, q);
      CountConcat(if es[0].key.pid == pid then [] else [es[0]], Others(es[1..], pid), q);
    }
  }

  lemma OthersAccounts(es: seq<Entry>, cs: Counters, quota: nat, pid: int)
    requires Accounted(es, cs, quota)
    ensures Accounted(Others(es, pid), cs - {pid}, quota)
    ensures Exact(es, cs) ==> Exact(Others(es, pid), cs - {pid})
  {
    forall q ensures CountOf(Others(es, pid), q) == if q == pid then 0 else CountOf(es, q) { OthersCount(es, pid, q); }
    OthersCount(es, pid, pid);
    forall i | 0 <= i < |Others(es, pid)|
      ensures Others(es, pid)[i].key.pid in cs - {pid}
    {
      assert Others(es, pid)[i] in es;
    }
  }
}
