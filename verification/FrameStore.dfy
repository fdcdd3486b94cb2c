/** The frames of the memory server and the page table kept in their first bytes. */
module FrameStore {
  import opened Bytes
  import opened Rounding
  import opened PageTable

  datatype PageKind = Code | Stack | Heap | Free

  /** What a run of claims is for: heap pages, or the initial pages, of which those from `stackFrom` on are stack. */
  datatype Purpose = ForHeap | Initial(stackFrom: int) {
    function KindOf(page: int): (kind: PageKind)
      ensures kind != Free
    {
      match this
      case ForHeap => Heap
      case Initial(stackFrom) => if 0 <= stackFrom <= page then Stack else Code
    }
  }

  /** The kinds after the frames `fs` have been claimed for pages `from, from + 1, ...`. */
  function KindAll(k: seq<PageKind>, purpose: Purpose, from: int, fs: seq<nat>): (r: seq<PageKind>)
    requires forall i :: 0 <= i < |fs| ==> fs[i] < |k|
    ensures |r| == |k|
  {
    if fs == [] then k
    else
      var last := |fs| - 1;
      KindAll(k, purpose, from, fs[..last])[fs[last] := purpose.KindOf(from + last)]
  }

  lemma KindAllSnoc(k: seq<PageKind>, purpose: Purpose, from: int, fs: seq<nat>, f: nat)
    requires f < |k| && forall i :: 0 <= i < |fs| ==> fs[i] < |k|
    ensures KindAll(k, purpose, from, fs + [f]) == KindAll(k, purpose, from, fs)[f := purpose.KindOf(from + |fs|)]
  {
    assert (fs + [f])[..|fs|] == fs;
  }

  /** Every frame claimed for page k of a process that owned none has the kind of page k. */
  lemma {:induction false} KindAllAt(t: seq<Frame>, k: seq<PageKind>, pid: int32, purpose: Purpose, from: nat,
                                     fs: seq<nat>, f: nat)
    requires |k| == |t| && f < |t| && from + |fs| < 0x8000_0000 && t[f].pid != pid
    requires forall i :: 0 <= i < |fs| ==> fs[i] < |t|
    ensures var e := ClaimAll(t, pid, from, fs)[f]; e.pid == pid ==>
              KindAll(k, purpose, from, fs)[f] == purpose.KindOf(e.page)
  {
    if fs == [] {
    } else {
      KindAllAt(t, k, pid, purpose, from, fs[..|fs| - 1], f);
    }
  }

  /** Frames that are claimed for heap pages are marked as such; a frame that had an owner keeps its mark. */
  lemma HeapKinds(t: seq<Frame>, k: seq<PageKind>, pid: int32, from: nat, fs: seq<nat>)
    requires |k| == |t| && 0 <= pid && Claimable(t, pid, from, fs)
    ensures forall f :: 0 <= f < |t| && t[f].pid != pid && ClaimAll(t, pid, from, fs)[f].pid == pid ==>
              KindAll(k, ForHeap, from, fs)[f] == Heap
    ensures forall f :: 0 <= f < |t| && t[f].pid != EMPTY ==> KindAll(k, ForHeap, from, fs)[f] == k[f]
  {
    forall f | 0 <= f < |t| && t[f].pid != pid
      ensures ClaimAll(t, pid, from, fs)[f].pid == pid ==> KindAll(k, ForHeap, from, fs)[f] == Heap
    {
      KindAllAt(t, k, pid, ForHeap, from, fs, f);
    }
    forall f | 0 <= f < |t| && t[f].pid != EMPTY
      ensures KindAll(k, ForHeap, from, fs)[f] == k[f]
    {
      KindOfOwned(t, k, pid, ForHeap, from, fs, f);
    }
  }

  lemma {:induction false} KindOfOwned(t: seq<Frame>, k: seq<PageKind>, pid: int32, purpose: Purpose, from: nat,
                                       fs: seq<nat>, f: nat)
    requires |k| == |t| && f < |t| && 0 <= pid && Claimable(t, pid, from, fs) && t[f].pid != EMPTY
    ensures KindAll(k, purpose, from, fs)[f] == k[f] && ClaimAll(t, pid, from, fs)[f] == t[f]
  {
    if fs == [] {
    } else {
      KindOfOwned(t, k, pid, purpose, from, fs[..|fs| - 1], f);
    }
  }

  /** Where the loop that undoes the claims begins. */
  lemma NothingRolledBack(t: seq<Frame>, pid: int32, from: nat, fs: seq<nat>)
    requires 0 <= pid && Claimable(t, pid, from, fs)
    ensures Unique(t) && FreshIds(t, pid, from, |fs|) ==>
              RolledBack(t, ClaimAll(t, pid, from, fs), pid, from, from + |fs|)
  {
    ClaimAllFacts(t, pid, from, fs);
  }

  /** Frames that had an owner keep their marks. */
  ghost predicate KindsKept(t: seq<Frame>, before: seq<PageKind>, after: seq<PageKind>) {
    forall f :: 0 <= f < |t| && f < |before| && f < |after| && t[f].pid != EMPTY ==> after[f] == before[f]
  }

  /** The pages of a process whose frames have a given kind. */
  ghost function PagesOfKind(t: seq<Frame>, k: seq<PageKind>, pid: int, kind: PageKind): set<int> {
    set f | 0 <= f < |t| && f < |k| && t[f].pid == pid && k[f] == kind :: t[f].page
  }

  /** The last `m` of `n` pages; none of them if there are not as many. */
  ghost function LastPages(n: nat, m: nat): set<int> {
    if m <= n then Range(n - m, n) else {}
  }

  /** A process that owned no page gets those its purpose asks for, each marked with its kind. */
  lemma KindsOfNew(t: seq<Frame>, k: seq<PageKind>, pid: int32, purpose: Purpose, fs: seq<nat>, f: nat)
    requires |k| == |t| && 0 <= pid && CountPid(t, pid) == 0 && Claimable(t, pid, 0, fs) && f < |t|
    requires ClaimAll(t, pid, 0, fs)[f].pid == pid
    ensures var page := ClaimAll(t, pid, 0, fs)[f].page;
            KindAll(k, purpose, 0, fs)[f] == purpose.KindOf(page) && 0 <= page < |fs|
  {
    CountZero(t, pid);
    ClaimAllFacts(t, pid, 0, fs);
    KindAllAt(t, k, pid, purpose, 0, fs, f);
  }

  lemma FrameOfNew(t: seq<Frame>, pid: int32, fs: seq<nat>, page: nat) returns (f: nat)
    requires 0 <= pid && Claimable(t, pid, 0, fs) && page < |fs|
    ensures f < |t| && ClaimAll(t, pid, 0, fs)[f].pid == pid && ClaimAll(t, pid, 0, fs)[f].page == page
  {
    ClaimAllFacts(t, pid, 0, fs);
    assert Holds(ClaimAll(t, pid, 0, fs), PageKey(pid, page));
    f :| 0 <= f < |t| && ClaimAll(t, pid, 0, fs)[f].Owned() && ClaimAll(t, pid, 0, fs)[f].Key() == PageKey(pid, page);
  }

  /** The initial pages: the last `stackSize` are marked as stack, the others as code. */
  lemma InitialKinds(t: seq<Frame>, k: seq<PageKind>, pid: int32, stackSize: nat, fs: seq<nat>)
    requires |k| == |t| && 0 <= pid && CountPid(t, pid) == 0 && Claimable(t, pid, 0, fs)
    ensures var t', k' := ClaimAll(t, pid, 0, fs), KindAll(k, Initial(|fs| - stackSize), 0, fs);
            PagesOfKind(t', k', pid, Stack) == LastPages(|fs|, stackSize) &&
            PagesOfKind(t', k', pid, Code) == Range(0, |fs|) - LastPages(|fs|, stackSize)
  {
    InitialKind(t, k, pid, stackSize, fs, Stack, LastPages(|fs|, stackSize));
    InitialKind(t, k, pid, stackSize, fs, Code, Range(0, |fs|) - LastPages(|fs|, stackSize));
  }

  lemma InitialKind(t: seq<Frame>, k: seq<PageKind>, pid: int32, stackSize: nat, fs: seq<nat>, kind: PageKind,
                    pages: set<int>)
    requires |k| == |t| && 0 <= pid && CountPid(t, pid) == 0 && Claimable(t, pid, 0, fs)
    requires forall page :: page in pages <==> page in Range(0, |fs|) && Initial(|fs| - stackSize).KindOf(page) == kind
    ensures PagesOfKind(ClaimAll(t, pid, 0, fs), KindAll(k, Initial(|fs| - stackSize), 0, fs), pid, kind) == pages
  {
    var purpose := Initial(|fs| - stackSize);
    var t', k' := ClaimAll(t, pid, 0, fs), KindAll(k, purpose, 0, fs);
    forall page
      ensures page in PagesOfKind(t', k', pid, kind) <==> page in Range(0, |fs|) && purpose.KindOf(page) == kind
    {
      KindOfPage(t, k, pid, purpose, fs, kind, page);
    }
    SameSet(PagesOfKind(t', k', pid, kind), pages);
  }

  lemma KindOfPage(t: seq<Frame>, k: seq<PageKind>, pid: int32, purpose: Purpose, fs: seq<nat>, kind: PageKind,
                   page: int)
    requires |k| == |t| && 0 <= pid && CountPid(t, pid) == 0 && Claimable(t, pid, 0, fs)
    ensures page in PagesOfKind(ClaimAll(t, pid, 0, fs), KindAll(k, purpose, 0, fs), pid, kind) <==>
              page in Range(0, |fs|) && purpose.KindOf(page) == kind
  {
    var t', k' := ClaimAll(t, pid, 0, fs), KindAll(k, purpose, 0, fs);
    if page in Range(0, |fs|) {
      var f := FrameOfNew(t, pid, fs, page);
      KindsOfNew(t, k, pid, purpose, fs, f);
    }
    if page in PagesOfKind(t', k', pid, kind) {
      var f :| 0 <= f < |t'| && f < |k'| && t'[f].pid == pid && k'[f] == kind && t'[f].page == page;
      KindsOfNew(t, k, pid, purpose, fs, f);
    }
  }

  class FrameStore {
    const frames: nat
    const frameSize: nat
    const mem: array<byte>
    var kinds: seq<PageKind>

    ghost predicate Valid()
      reads this, mem
    {
      && 0 < frames < 0x1000_0000 && Shaped()
      && |kinds| == frames
      && Partitioned(Table(), Reserved())
      && forall f :: 0 <= f < frames ==> (kinds[f] == Free <==> !Table()[f].Owned())
    }

    ghost predicate Shaped() {
      8 <= frameSize && mem.Length == At(frames, frameSize) && 8 * frames <= mem.Length
    }

    function Reserved(): nat
      requires 0 < frameSize
    {
      ReservedFrames(frames, frameSize)
    }

    ghost function Table(): (t: seq<Frame>)
      requires Shaped()
      reads mem
      ensures |t| == frames
    {
      TableOf(mem[..], frames)
    }

    /** The store as a flat memory; a function of (pid, page) only while no key is held twice. */
    ghost function Pages(): map<PageKey, seq<byte>>
      requires Shaped()
      reads mem
    {
      FlatPages(mem[..], frames, frameSize)
    }

    lemma HeldInPages(k: PageKey)
      requires Shaped()
      ensures k in Pages() <==> Holds(Table(), k)
    {
      FlatKeys(mem[..], frames, frameSize, frames);
      KeysAreHeld(Table(), k);
    }

    /** `crearEstructuras`: all frames empty, then the first ones reserved for the table itself. */
    constructor (frames: nat, frameSize: nat)
      requires 0 < frames < 0x1000_0000 && 8 <= frameSize
      ensures Valid() && fresh(mem)
      ensures this.frames == frames && this.frameSize == frameSize
      ensures Unique(Table()) && Dense(Table()) && Pages() == map[]
    {
      this.frames, this.frameSize := frames, frameSize;
      ReservedCoverTable(frames, frameSize);
      AtIsProduct(frames, frameSize);
      mem := new byte[frames * frameSize];
      kinds := [];
      new;
      EmptyTable();
      ReserveTable();
      forall pid | 0 <= pid
        ensures CountPid(Table(), pid) == 0
      {
        CountZero(Table(), pid);
      }
      FlatKeys(mem[..], frames, frameSize, frames);
    }

    method EmptyTable()
      requires Shaped()
      modifies this`kinds, mem
      ensures |kinds| == frames && forall f :: 0 <= f < frames ==> kinds[f] == Free && Table()[f].pid == EMPTY
    {
      kinds := [];
      var f := 0;
      while f < frames
        invariant 0 <= f <= frames && |kinds| == f
        invariant forall g :: 0 <= g < f ==> kinds[g] == Free && Table()[g].pid == EMPTY
      {
        StorePid(mem[..], frames, f, EMPTY);
        PutInt32(8 * f, EMPTY);
        kinds := kinds + [Free];
        f := f + 1;
      }
    }

    method ReserveTable()
      requires Shaped()
      requires forall f :: 0 <= f < frames ==> Table()[f].pid == EMPTY
      modifies mem
      ensures Reserved() <= frames
      ensures forall f :: 0 <= f < frames ==> Table()[f].pid == if f < Reserved() then RESERVED else EMPTY
    {
      var needed := 8 * frames / frameSize;
      if 8 * frames % frameSize != 0 {
        needed := needed + 1;
      }
      ReservedCoverTable(frames, frameSize);
      var f := 0;
      while f < needed
        invariant 0 <= f <= needed
        invariant forall g :: 0 <= g < frames ==> Table()[g].pid == if g < f then RESERVED else EMPTY
      {
        WriteEntry(f, RESERVED, 0);
        f := f + 1;
      }
    }

    /** One aligned or unaligned 4-byte store. */
    method PutInt32(at: nat, x: int32)
      requires at + 4 <= mem.Length
      modifies mem
      ensures mem[..] == Splice(old(mem[..]), at, EncodeInt32(x))
    {
      var b := EncodeInt32(x);
      mem[at], mem[at + 1], mem[at + 2], mem[at + 3] := b[0], b[1], b[2], b[3];
    }

    /** `memcpy` into the memory. */
    method Put(at: nat, data: seq<byte>)
      requires at + |data| <= mem.Length
      modifies mem
      ensures mem[..] == Splice(old(mem[..]), at, data)
    {
      var i := 0;
      while i < |data|
        invariant 0 <= i <= |data|
        invariant mem[..] == Splice(old(mem[..]), at, data[..i])
      {
        mem[at + i] := data[i];
        i := i + 1;
        assert data[..i] == data[..i - 1] + [data[i - 1]];
      }
      assert data[..|data|] == data;
    }

    method Entry(f: nat) returns (e: Frame)
      requires Shaped() && f < frames
      ensures e == Table()[f]
    {
      e := Frame(DecodeInt32(mem[8 * f..8 * f + 4]), DecodeInt32(mem[8 * f + 4..8 * f + 8]));
      TableAt(mem[..], frames, f);
      assert mem[8 * f..8 * f + 4] == mem[..][8 * f..8 * f + 4];
      assert mem[8 * f + 4..8 * f + 8] == mem[..][8 * f + 4..8 * f + 8];
    }

    /** `buscarIndiceEnPaginaDeFrames`: a frame is found exactly when the page is mapped. */
    method FindFrame(pid: nat, page: nat) returns (found: int)
      requires Valid()
      ensures found == -1 || 0 <= found < frames
      ensures found == -1 <==> !Holds(Table(), PageKey(pid, page))
      ensures found != -1 ==> FirstProbe(Table(), Start(frames, pid, page), true, pid, page, found)
    {
      found := Turn(Start(frames, pid, page), pid, page);
    }

    /** The loop of `buscarIndiceEnPaginaDeFrames`, which moves its base back when it wraps around. */
    method Turn(start: nat, pid: nat, page: nat) returns (found: int)
      requires Valid() && start < frames
      ensures found == -1 || 0 <= found < frames
      ensures found == -1 <==> !Holds(Table(), PageKey(pid, page))
      ensures found != -1 ==> FirstProbe(Table(), start, true, pid, page, found)
    {
      ghost var t := Table();
      var approx: int := start;
      var i := 0;
      while i < frames
        invariant 0 <= i <= frames && Table() == t
        invariant approx == if start + i <= frames then start else start - frames
        invariant NoneWanted(t, start, true, pid, page, i)
      {
        if i + approx == frames {
          approx := approx - frames;
        }
        var f := i + approx;
        assert f == Probe(start, i, frames);
        var e := Entry(f);
        if e.page == page && e.pid == pid {
          assert t[f].Key() == PageKey(pid, page);
          return f;
        }
        assert NoneWanted(t, start, true, pid, page, i + 1);
        i := i + 1;
      }
      ProbeExhausted(t, start, true, pid, page);
      return -1;
    }

    /** The bytes `leerPaginaDeMemoria` points at. */
    method ReadFrame(f: nat) returns (page: seq<byte>)
      requires Shaped() && f < frames
      ensures page == FrameBytes(mem[..], frames, frameSize, f)
      ensures Unique(Table()) && Table()[f].Owned() ==> Table()[f].Key() in Pages() && page == Pages()[Table()[f].Key()]
    {
      if Unique(Table()) && Table()[f].Owned() { FlatAt(mem[..], frames, frameSize, frames, f); }
      FrameInside(f, frames, frameSize);
      AtIsProduct(f, frameSize);
      page := mem[f * frameSize..f * frameSize + frameSize];
    }

    /** A store of `data` at `offset` of frame `f`. */
    method WriteFrame(f: nat, offset: nat, data: seq<byte>)
      requires Valid() && Unique(Table()) && f < frames && Table()[f].Owned() && offset + |data| <= frameSize
      modifies mem
      ensures Valid() && Table() == old(Table())
      ensures var k := Table()[f].Key(); k in old(Pages()) && |old(Pages())[k]| == frameSize
      ensures var k := Table()[f].Key(); Pages() == old(Pages())[k := Splice(old(Pages())[k], offset, data)]
    {
      ghost var m := mem[..];
      UserStoreKeepsTable(m, frames, frameSize, f, offset, data);
      PutInFrame(f, offset, data);
      FlatStore(m, mem[..], frames, frameSize, f, Table()[f].Key(), offset, data);
    }

    /** The address of a frame is its number times the frame size. */
    method PutInFrame(f: nat, offset: nat, data: seq<byte>)
      requires At(f, frameSize) + offset + |data| <= mem.Length
      modifies mem
      ensures mem[..] == Splice(old(mem[..]), At(f, frameSize) + offset, data)
    {
      AtIsProduct(f, frameSize);
      Put(f * frameSize + offset, data);
    }

    /** `obtenerPaginasAsignadasPorProceso`. */
    method CountPages(pid: int) returns (count: nat)
      requires Valid()
      ensures count == CountPid(Table(), pid)
    {
      count := 0;
      var f := 0;
      while f < frames
        invariant 0 <= f <= frames
        invariant count == CountPid(Table()[..f], pid)
      {
        var e := Entry(f);
        if e.pid == pid {
          count := count + 1;
        }
        f := f + 1;
        assert Table()[..f][..f - 1] == Table()[..f - 1];
      }
      assert Table()[..frames] == Table();
    }

    method WriteEntry(f: nat, pid: int32, page: int32)
      requires Shaped() && f < frames
      modifies mem
      ensures Table() == old(Table())[f := Frame(pid, page)]
      ensures SameContent(old(mem[..]), mem[..], frames, frameSize)
    {
      ghost var m0 := mem[..];
      StorePage(m0, frames, f, page);
      PutInt32(8 * f + 4, page);
      ghost var m1 := mem[..];
      StorePid(m1, frames, f, pid);
      PutInt32(8 * f, pid);
      forall g | Reserved() <= g < frames
        ensures FrameBytes(mem[..], frames, frameSize, g) == FrameBytes(m0, frames, frameSize, g)
      {
        TableStoreKeepsFrame(m0, frames, frameSize, 8 * f + 4, EncodeInt32(page), g);
        TableStoreKeepsFrame(m1, frames, frameSize, 8 * f, EncodeInt32(pid), g);
      }
    }

    method EmptyEntry(f: nat)
      requires Shaped() && f < frames
      modifies mem
      ensures Table() == old(Table())[f := old(Table())[f].(pid := EMPTY)]
      ensures SameContent(old(mem[..]), mem[..], frames, frameSize)
    {
      ghost var m0 := mem[..];
      StorePid(m0, frames, f, EMPTY);
      PutInt32(8 * f, EMPTY);
      forall g | Reserved() <= g < frames
        ensures FrameBytes(mem[..], frames, frameSize, g) == FrameBytes(m0, frames, frameSize, g)
      {
        TableStoreKeepsFrame(m0, frames, frameSize, 8 * f, EncodeInt32(EMPTY), g);
      }
    }

    /** The loop of `escribirEnTablaDeFrame`: one full turn from the hashed frame. */
    method Search(start: nat, pid: nat, page: nat, vacate: bool) returns (found: int)
      requires Valid() && start < frames
      ensures found == -1 || 0 <= found < frames
      ensures found == -1 <==> forall f :: 0 <= f < frames ==> !Wanted(Table()[f], vacate, pid, page)
      ensures found != -1 ==> FirstProbe(Table(), start, vacate, pid, page, found)
    {
      ghost var t := Table();
      var index := start;
      ghost var visited := 0;
      while true
        invariant visited < frames && index == Probe(start, visited, frames)
        invariant Table() == t && NoneWanted(t, start, vacate, pid, page, visited)
        decreases frames - visited
      {
        var e := Entry(index);
        if if vacate then e.pid == pid && e.page == page else e.pid == EMPTY {
          return index;
        }
        assert NoneWanted(t, start, vacate, pid, page, visited + 1);
        index := index + 1;
        if index == frames {
          index := 0;
        }
        if index == start {
          break;
        }
        visited := visited + 1;
      }
      ProbeExhausted(t, start, vacate, pid, page);
      return -1;
    }

    /** `escribirEnTablaDeFrame`: claims an empty frame for the page, or vacates the frame that holds it. */
    method WriteTable(pid: int32, page: int32, vacate: bool, kind: PageKind) returns (ok: bool, ghost f: nat)
      requires Valid() && 0 <= pid && 0 <= page && (vacate <==> kind == Free)
      modifies this`kinds, mem
      ensures Valid()
      ensures ok <==> exists g :: 0 <= g < frames && Wanted(old(Table())[g], vacate, pid, page)
      ensures !ok ==> mem[..] == old(mem[..]) && kinds == old(kinds)
      ensures ok ==> f < frames && FirstProbe(old(Table()), Start(frames, pid, page), vacate, pid, page, f)
      ensures ok ==> kinds == old(kinds)[f := kind]
      ensures ok ==> Table() == old(Table())[f := if vacate then old(Table())[f].(pid := EMPTY) else Frame(pid, page)]
      ensures SameContent(old(mem[..]), mem[..], frames, frameSize)
    {
      var found := Search(Start(frames, pid, page), pid, page, vacate);
      if found == -1 {
        return false, 0;
      }
      if vacate {
        EmptyEntry(found);
      } else {
        WriteEntry(found, pid, page);
      }
      kinds := kinds[found := kind];
      return true, found;
    }

    /** `eliminarPaginasDeProceso`: empties every frame of the process. */
    method RemoveProcess(pid: nat)
      requires Valid()
      modifies this`kinds, mem
      ensures Valid()
      ensures Table() == WithoutPid(old(Table()), pid)
      ensures SameContent(old(mem[..]), mem[..], frames, frameSize)
      ensures forall f :: 0 <= f < frames ==>
                kinds[f] == if old(Table())[f].pid == pid then Free else old(kinds)[f]
    {
      ghost var t, m0 := Table(), mem[..];
      var f := 0;
      while f < frames
        invariant 0 <= f <= frames && |kinds| == frames
        invariant forall g :: 0 <= g < frames ==> Table()[g] == if g < f then WithoutPid(t, pid)[g] else t[g]
        invariant forall g :: 0 <= g < frames ==>
                    kinds[g] == if g < f && t[g].pid == pid then Free else old(kinds)[g]
        invariant SameContent(m0, mem[..], frames, frameSize)
      {
        var e := Entry(f);
        if e.pid == pid {
          ghost var m1 := mem[..];
          EmptyEntry(f);
          SameContentChain(m0, m1, mem[..], frames, frameSize);
          kinds := kinds[f := Free];
        }
        f := f + 1;
      }
    }

    /** The inner loop of `asignarPaginasDeHeap`, run when the memory is full. */
    method VacateAgain(ghost t0: seq<Frame>, pid: int32, from: nat, count: nat, ghost fs: seq<nat>)
      requires Valid() && 0 <= pid && |fs| == count && from + count <= frames == |t0|
      requires Claimable(t0, pid, from, fs) && Table() == ClaimAll(t0, pid, from, fs)
      modifies this`kinds, mem
      ensures Valid() && SameContent(old(mem[..]), mem[..], frames, frameSize)
      ensures Unique(t0) && FreshIds(t0, pid, from, count) ==> SameOwners(t0, Table())
      ensures Unique(t0) && FreshIds(t0, pid, from, count) ==> KindsKept(t0, old(kinds), kinds)
    {
      NothingRolledBack(t0, pid, from, fs);
      ghost var m0, k0 := mem[..], kinds;
      ghost var good := Unique(t0) && FreshIds(t0, pid, from, count);
      var y := from;
      while y < from + count
        invariant from <= y <= from + count && Valid()
        invariant SameContent(m0, mem[..], frames, frameSize)
        invariant good ==> RolledBack(t0, Table(), pid, y, from + count) && KindsKept(t0, k0, kinds)
      {
        ghost var m1 := mem[..];
        VacateOne(t0, pid, y, from + count);
        SameContentChain(m0, m1, mem[..], frames, frameSize);
        y := y + 1;
      }
    }

    method VacateOne(ghost t0: seq<Frame>, pid: int32, y: int32, ghost end: nat)
      requires Valid() && 0 <= pid && 0 <= y < end
      modifies this`kinds, mem
      ensures Valid() && SameContent(old(mem[..]), mem[..], frames, frameSize)
      ensures Unique(t0) && FreshIds(t0, pid, y, end - y) && RolledBack(t0, old(Table()), pid, y, end) ==>
                RolledBack(t0, Table(), pid, y + 1, end) && KindsKept(t0, old(kinds), kinds)
    {
      ghost var t := Table();
      var vacated, f := WriteTable(pid, y, true, Free);
      if Unique(t0) && FreshIds(t0, pid, y, end - y) && RolledBack(t0, t, pid, y, end) {
        assert Wanted(t[FrameOf(t, PageKey(pid, y))], true, pid, y);
        RollBackStep(t0, t, pid, y, end, f);
        assert !Holds(t0, PageKey(pid, y));
        assert t0[f].pid == EMPTY;
      }
    }

    /** One claim after those of `fs`. */
    method ClaimNext(ghost t0: seq<Frame>, ghost k0: seq<PageKind>, pid: int32, from: nat, ghost fs: seq<nat>, n: nat,
                     purpose: Purpose)
      returns (ok: bool, ghost fs': seq<nat>)
      requires Valid() && 0 <= pid && |fs| == n && from + n + 1 < 0x8000_0000 && |t0| == |k0| == frames
      requires Claimable(t0, pid, from, fs) && Table() == ClaimAll(t0, pid, from, fs)
      requires kinds == KindAll(k0, purpose, from, fs)
      modifies this`kinds, mem
      ensures Valid() && SameContent(old(mem[..]), mem[..], frames, frameSize)
      ensures !ok ==> Table() == old(Table()) && kinds == old(kinds) && CountPid(Table(), EMPTY) == 0
      ensures ok ==> |fs'| == n + 1 && Claimable(t0, pid, from, fs') && Table() == ClaimAll(t0, pid, from, fs')
      ensures ok ==> kinds == KindAll(k0, purpose, from, fs')
    {
      ghost var t := Table();
      ghost var f;
      ok, f := WriteTable(pid, from + n, false, purpose.KindOf(from + n));
      fs' := fs + [f];
      if ok {
        assert Wanted(t[f], false, pid, from + n);
        ClaimAllSnoc(t0, pid, from, fs, f);
        KindAllSnoc(k0, purpose, from, fs, f);
      } else {
        assert forall g :: 0 <= g < frames ==> !Wanted(t[g], false, pid, from + n);
        CountZero(t, EMPTY);
      }
    }

    /**
     `asignarPaginasDeHeap`: grants `n` heap pages numbered after the ones the process owns, or none.
     It answers yes exactly when enough frames are empty. A refusal gives every frame back to the
     owner it had, provided the page numbers it had tried were not in use.
     */
    method AssignHeapPages(pid: int32, n: nat) returns (ok: bool, ghost fs: seq<nat>)
      requires Valid() && 0 <= pid
      modifies this`kinds, mem
      ensures Valid() && SameContent(old(mem[..]), mem[..], frames, frameSize)
      ensures ok <==> n <= CountPid(old(Table()), EMPTY)
      ensures ok ==> |fs| == n && Claimable(old(Table()), pid, CountPid(old(Table()), pid), fs)
      ensures ok ==> Table() == ClaimAll(old(Table()), pid, CountPid(old(Table()), pid), fs)
      ensures ok ==> kinds == KindAll(old(kinds), ForHeap, CountPid(old(Table()), pid), fs)
      ensures !ok && Unique(old(Table())) && FreshIds(old(Table()), pid, CountPid(old(Table()), pid), n) ==>
                SameOwners(old(Table()), Table())
      ensures ok ==> forall f :: 0 <= f < frames && old(Table())[f].pid != pid && Table()[f].pid == pid ==>
                       kinds[f] == Heap
      ensures ok ==> forall f :: 0 <= f < frames && Table()[f] == old(Table())[f] && old(Table())[f].pid != EMPTY ==>
                       kinds[f] == old(kinds)[f]
    {
      ghost var t0, k0 := Table(), kinds;
      ok, fs := ClaimForHeap(pid, n);
      if ok { HeapKinds(t0, k0, pid, CountPid(t0, pid), fs); }
    }

    method ClaimForHeap(pid: int32, n: nat) returns (ok: bool, ghost fs: seq<nat>)
      requires Valid() && 0 <= pid
      modifies this`kinds, mem
      ensures Valid() && SameContent(old(mem[..]), mem[..], frames, frameSize)
      ensures ok <==> n <= CountPid(old(Table()), EMPTY)
      ensures ok ==> |fs| == n && Claimable(old(Table()), pid, CountPid(old(Table()), pid), fs)
      ensures ok ==> Table() == ClaimAll(old(Table()), pid, CountPid(old(Table()), pid), fs)
      ensures ok ==> kinds == KindAll(old(kinds), ForHeap, CountPid(old(Table()), pid), fs)
      ensures !ok && Unique(old(Table())) && FreshIds(old(Table()), pid, CountPid(old(Table()), pid), n) ==>
                SameOwners(old(Table()), Table())
    {
      ghost var t0, m0, k0 := Table(), mem[..], kinds;
      var from := CountPages(pid);
      fs := [];
      CountsWithin(t0, pid);
      var i := 0;
      while i < n
        invariant 0 <= i <= n && i == |fs| && i <= CountPid(t0, EMPTY) && Valid()
        invariant SameContent(m0, mem[..], frames, frameSize)
        invariant Claimable(t0, pid, from, fs) && Table() == ClaimAll(t0, pid, from, fs)
        invariant kinds == KindAll(k0, ForHeap, from, fs)
      {
        ghost var m1 := mem[..];
        var claimed;
        ghost var fs';
        claimed, fs' := ClaimNext(t0, k0, pid, from, fs, i, ForHeap);
        SameContentChain(m0, m1, mem[..], frames, frameSize);
        if !claimed {
          ClaimsCount(t0, pid, from, fs);
          VacateAgain(t0, pid, from, i, fs);
          return false, fs;
        }
        ClaimsCount(t0, pid, from, fs');
        fs := fs';
        i := i + 1;
      }
      return true, fs;
    }

    /**
     `crearPaginasIniciales`: pages 0, ..., n - 1 of a new process, the last `stackSize` of them for its
     stack; or, when the frames run out, no page at all for that process.
     */
    method CreateInitialPages(pid: int32, n: nat, stackSize: nat) returns (ok: bool, ghost fs: seq<nat>)
      requires Valid() && 0 <= pid
      modifies this`kinds, mem
      ensures Valid() && SameContent(old(mem[..]), mem[..], frames, frameSize)
      ensures ok <==> n <= CountPid(old(Table()), EMPTY)
      ensures ok ==> |fs| == n && Claimable(old(Table()), pid, 0, fs)
      ensures ok ==> Table() == ClaimAll(old(Table()), pid, 0, fs)
      ensures ok ==> kinds == KindAll(old(kinds), Initial(n - stackSize), 0, fs)
      ensures ok && CountPid(old(Table()), pid) == 0 ==>
                PagesOfKind(Table(), kinds, pid, Stack) == LastPages(n, stackSize) &&
                PagesOfKind(Table(), kinds, pid, Code) == Range(0, n) - LastPages(n, stackSize)
      ensures !ok ==> SameOwners(WithoutPid(old(Table()), pid), Table())
      ensures !ok && CountPid(old(Table()), pid) == 0 ==> SameOwners(old(Table()), Table())
    {
      ghost var t0, m0, k0 := Table(), mem[..], kinds;
      var purpose := Initial(n - stackSize);
      fs := [];
      CountsWithin(t0, pid);
      var i := 0;
      while i < n
        invariant 0 <= i <= n && i == |fs| && i <= CountPid(t0, EMPTY) && Valid()
        invariant SameContent(m0, mem[..], frames, frameSize)
        invariant Claimable(t0, pid, 0, fs) && Table() == ClaimAll(t0, pid, 0, fs)
        invariant kinds == KindAll(k0, purpose, 0, fs)
      {
        ghost var m1 := mem[..];
        var claimed;
        ghost var fs';
        claimed, fs' := ClaimNext(t0, k0, pid, 0, fs, i, purpose);
        SameContentChain(m0, m1, mem[..], frames, frameSize);
        if !claimed {
          ClaimAllFacts(t0, pid, 0, fs);
          m1 := mem[..];
          RemoveProcess(pid);
          SameContentChain(m0, m1, mem[..], frames, frameSize);
          DropClaims(t0, ClaimAll(t0, pid, 0, fs), pid, 0, i);
          if CountPid(t0, pid) == 0 { WithoutNobody(t0, pid); }
          return false, fs;
        }
        ClaimsCount(t0, pid, 0, fs');
        fs := fs';
        i := i + 1;
      }
      if CountPid(t0, pid) == 0 { InitialKinds(t0, k0, pid, stackSize, fs); }
      return true, fs;
    }
  }
}
