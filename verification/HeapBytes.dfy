/** The block headers as bytes in the memory server: what the kernel writes there, and what a dump reads back. */
module HeapBytes {
  import opened Bytes
  import opened PageTable
  import opened MemoryServer
  import opened HeapBlocks
  import opened HeapTable
  import H = HeapHeaders
  import A = HeapAddresses

  // ---------------------------------------------------------------- one header

  /** The character of the flag: '0' for free, '1' for used. */
  function Flag(free: bool): byte {
    if free then 48 else 49
  }

  /** `heap_metadata`: the size and the flag. */
  function HeaderBytes(size: int32, free: bool): (b: seq<byte>)
    ensures |b| == HEADER
  {
    EncodeInt32(size) + [Flag(free)]
  }

  /** The size and the flag that stand at an offset of a page. */
  function HeaderIn(content: seq<byte>, at: nat): (int32, byte)
    requires at + HEADER <= |content|
  {
    (DecodeInt32(content[at..at + 4]), content[at + 4])
  }

  lemma HeaderStored(content: seq<byte>, at: nat, size: int32, free: bool)
    requires at + HEADER <= |content|
    ensures var r := Splice(content, at, HeaderBytes(size, free));
            DecodeInt32(r[at..at + 4]) == size && r[at + 4] as char == if free then '0' else '1'
    ensures HeaderIn(Splice(content, at, HeaderBytes(size, free)), at) == (size, Flag(free))
  {
    var r := Splice(content, at, HeaderBytes(size, free));
    assert r[at..at + 4] == EncodeInt32(size);
    DecodeEncodeInt32(size);
  }

  lemma HeaderKept(content: seq<byte>, at: nat, data: seq<byte>, other: nat)
    requires at + |data| <= |content| && other + HEADER <= |content|
    requires at + |data| <= other || other + HEADER <= at
    ensures HeaderIn(Splice(content, at, data), other) == HeaderIn(content, other)
  {
    SpliceElsewhere(content, at, data, other, other + 4);
  }

  // ---------------------------------------------------------------- the kernel's table against the bytes

  /** The header of a block stands in its page. */
  predicate Stands(content: seq<byte>, b: Block) {
    HEADER <= b.offset <= |content| && HeaderIn(content, b.offset - HEADER) == (b.size, Flag(!b.used))
  }

  /** What a process stores inside one of its allocations touches no header. */
  lemma PayloadStoreKeeps(content: seq<byte>, bs: seq<Block>, i: nat, at: nat, data: seq<byte>, j: nat)
    requires Tiled(bs, |content|) && Sized(bs) && i < |bs| && j < |bs|
    requires bs[i].offset <= at && at + |data| <= bs[i].End()
    ensures at + |data| <= |content| && (Stands(Splice(content, at, data), bs[j]) <==> Stands(content, bs[j]))
  {
    Inside(bs, |content|, i);
    Inside(bs, |content|, j);
    if i < j { Apart(bs, |content|, i, j); }
    if j < i { Apart(bs, |content|, j, i); }
    HeaderKept(content, at, data, bs[j].offset - HEADER);
  }

  ghost predicate PageStands(p: Pages, page: HeapPage) {
    PageKey(page.pid, page.number) in p &&
    forall j :: 0 <= j < |page.blocks| ==> Stands(p[PageKey(page.pid, page.number)], page.blocks[j])
  }

  /** The headers of all blocks of all processes stand in memory. */
  ghost predicate TableStands(p: Pages, ps: seq<HeapPage>) {
    forall i :: 0 <= i < |ps| && 0 <= ps[i].pid ==> PageStands(p, ps[i])
  }

  predicate Writable(w: HeaderWrite, frameSize: nat) {
    0 <= w.offset && w.offset + HEADER <= frameSize && -0x8000_0000 <= w.size < 0x8000_0000
  }

  /** What one header write does to the flat memory. */
  ghost function AfterWrite(p: Pages, w: HeaderWrite, frameSize: nat): (r: Pages)
    requires PageSized(p, frameSize) && Writable(w, frameSize)
    ensures PageSized(r, frameSize) && r.Keys == p.Keys
  {
    FlatWrite(p, frameSize, Chars, PageKey(w.pid, w.number), w.offset, HeaderBytes(w.size, w.free)).0
  }

  ghost predicate AllWritable(ws: seq<HeaderWrite>, frameSize: nat) {
    forall i :: 0 <= i < |ws| ==> Writable(ws[i], frameSize)
  }

  ghost function AfterWrites(p: Pages, ws: seq<HeaderWrite>, frameSize: nat): (r: Pages)
    requires PageSized(p, frameSize) && AllWritable(ws, frameSize)
    ensures PageSized(r, frameSize) && r.Keys == p.Keys
    decreases |ws|
  {
    if ws == [] then p else AfterWrites(AfterWrite(p, ws[0], frameSize), ws[1..], frameSize)
  }

  /** The kernel asks the memory server to write a header. */
  method WriteHeader(server: MemoryServer, w: HeaderWrite) returns (taken: bool)
    requires server.Consistent() && Writable(w, server.store.frameSize) && 0 <= w.pid && 0 <= w.number
    modifies server.store.mem, server.cache
    ensures server.Consistent() && server.Pages() == AfterWrite(old(server.Pages()), w, server.store.frameSize)
    ensures taken <==> PageKey(w.pid, w.number) in old(server.Pages())
    ensures taken ==>
              var content := server.Pages()[PageKey(w.pid, w.number)];
              DecodeInt32(content[w.offset..w.offset + 4]) == w.size &&
              content[w.offset + 4] as char == if w.free then '0' else '1'
  {
    if PageKey(w.pid, w.number) in server.Pages() {
      HeaderStored(server.Pages()[PageKey(w.pid, w.number)], w.offset, w.size, w.free);
    }
    var reply := server.Write(Chars, w.pid, w.number, w.offset, HeaderBytes(w.size, w.free));
    taken := reply == Written;
  }

  // ---------------------------------------------------------------- the places of headers

  type Place = (int, int, int)

  ghost function Places(ps: seq<HeapPage>): set<Place> {
    set i, j | 0 <= i < |ps| && 0 <= ps[i].pid && 0 <= j < |ps[i].blocks| ::
      (ps[i].pid, ps[i].number, ps[i].blocks[j].offset - HEADER)
  }

  ghost predicate InPlaces(ws: seq<HeaderWrite>, places: set<Place>) {
    forall i :: 0 <= i < |ws| ==> (ws[i].pid, ws[i].number, ws[i].offset) in places
  }

  /** The headers of a page are at places of a set. */
  ghost predicate PageIn(page: HeapPage, places: set<Place>) {
    forall j :: 0 <= j < |page.blocks| ==> (page.pid, page.number, page.blocks[j].offset - HEADER) in places
  }

  ghost predicate Filled(ps: seq<HeapPage>) {
    forall i :: 0 <= i < |ps| ==> ps[i].blocks != []
  }

  /** Places of one page lie at least a header apart. */
  ghost predicate Spaced(places: set<Place>) {
    forall a, b :: a in places && b in places && a.0 == b.0 && a.1 == b.1 && a.2 < b.2 ==> a.2 + HEADER <= b.2
  }

  /** The page of each place is there, and the place inside. */
  ghost predicate Readable(p: Pages, places: set<Place>, frameSize: nat) {
    forall a :: a in places ==> PageKey(a.0, a.1) in p && 0 <= a.2 && a.2 + HEADER <= frameSize
  }

  lemma PlacesSpaced(ps: seq<HeapPage>, frameSize: nat)
    requires TableValid(ps, frameSize)
    ensures Spaced(Places(ps))
    ensures forall a :: a in Places(ps) ==> 0 <= a.2 && a.2 + HEADER <= frameSize
  {
    forall a | a in Places(ps)
      ensures 0 <= a.2 && a.2 + HEADER <= frameSize
    {
      var i, j := PlaceOf(ps, a);
      Inside(ps[i].blocks, frameSize, j);
    }
    forall a, b | a in Places(ps) && b in Places(ps) && a.0 == b.0 && a.1 == b.1 && a.2 < b.2
      ensures a.2 + HEADER <= b.2
    {
      var i, j := PlaceOf(ps, a);
      var i', j' := PlaceOf(ps, b);
      SameIndex(ps, i, i');
      if j < j' { Apart(ps[i].blocks, frameSize, j, j'); }
      if j' < j { Apart(ps[i].blocks, frameSize, j', j); }
    }
  }

  lemma PlaceOf(ps: seq<HeapPage>, a: Place) returns (i: nat, j: nat)
    requires a in Places(ps)
    ensures i < |ps| && 0 <= ps[i].pid && j < |ps[i].blocks|
    ensures a == (ps[i].pid, ps[i].number, ps[i].blocks[j].offset - HEADER)
  {
    i, j :| 0 <= i < |ps| && 0 <= ps[i].pid && 0 <= j < |ps[i].blocks| &&
            a == (ps[i].pid, ps[i].number, ps[i].blocks[j].offset - HEADER);
  }

  lemma SameIndex(ps: seq<HeapPage>, i: nat, j: nat)
    requires Numbered(ps) && i < |ps| && j < |ps| && 0 <= ps[i].pid
    requires ps[i].pid == ps[j].pid && ps[i].number == ps[j].number
    ensures i == j
  {
    assert SamePage(ps[i], ps[j]) && SamePage(ps[j], ps[i]);
  }

  // ---------------------------------------------------------------- bytes and headers

  ghost predicate ProperAt(p: Pages, a: Place) {
    && PageKey(a.0, a.1) in p && 0 <= a.2 && a.2 + HEADER <= |p[PageKey(a.0, a.1)]|
    && HeaderIn(p[PageKey(a.0, a.1)], a.2).1 in {48, 49}
  }

  /** The headers that stand at given places. */
  ghost function ReadHeaders(p: Pages, places: set<Place>): H.HeaderMap {
    map a | a in places && ProperAt(p, a) ::
      (HeaderIn(p[PageKey(a.0, a.1)], a.2).0 as int, HeaderIn(p[PageKey(a.0, a.1)], a.2).1 == 48)
  }

  lemma StandsIsDescribed(p: Pages, ps: seq<HeapPage>, places: set<Place>, frameSize: nat)
    requires PageSized(p, frameSize) && Readable(p, places, frameSize) && Places(ps) <= places
    requires Filled(ps)
    ensures TableStands(p, ps) <==> H.TableDescribed(ReadHeaders(p, places), ps)
  {
    forall i | 0 <= i < |ps| && 0 <= ps[i].pid
      ensures PageStands(p, ps[i]) <==> H.Described(ReadHeaders(p, places), ps[i])
    {
      forall j | 0 <= j < |ps[i].blocks|
        ensures (ps[i].pid, ps[i].number, ps[i].blocks[j].offset - HEADER) in places
      {
        assert (ps[i].pid, ps[i].number, ps[i].blocks[j].offset - HEADER) in Places(ps);
      }
      PageStandsIs(p, ps[i], places, frameSize);
    }
  }

  lemma PageStandsIs(p: Pages, page: HeapPage, places: set<Place>, frameSize: nat)
    requires PageSized(p, frameSize) && Readable(p, places, frameSize) && PageIn(page, places) && page.blocks != []
    ensures PageStands(p, page) <==> H.Described(ReadHeaders(p, places), page)
  {
    var key := PageKey(page.pid, page.number);
    assert (page.pid, page.number, page.blocks[0].offset - HEADER) in places;
    forall j | 0 <= j < |page.blocks|
      ensures Stands(p[key], page.blocks[j]) <==>
                H.Tells(ReadHeaders(p, places), page.pid, page.number, page.blocks[j])
    {
      assert (page.pid, page.number, page.blocks[j].offset - HEADER) in places;
    }
  }

  /** One write in bytes is one write of a header. */
  lemma WriteFollows(p: Pages, w: HeaderWrite, places: set<Place>, frameSize: nat)
    requires PageSized(p, frameSize) && Readable(p, places, frameSize) && Spaced(places) && Writable(w, frameSize)
    requires (w.pid, w.number, w.offset) in places
    ensures ReadHeaders(AfterWrite(p, w, frameSize), places)
            == ReadHeaders(p, places)[(w.pid, w.number, w.offset) := (w.size, w.free)]
  {
    var key, p' := PageKey(w.pid, w.number), AfterWrite(p, w, frameSize);
    HeaderStored(p[key], w.offset, w.size, w.free);
    forall a | a in places && a != (w.pid, w.number, w.offset)
      ensures HeaderIn(p'[PageKey(a.0, a.1)], a.2) == HeaderIn(p[PageKey(a.0, a.1)], a.2)
    {
      if PageKey(a.0, a.1) == key {
        HeaderKept(p[key], w.offset, HeaderBytes(w.size, w.free), a.2);
      }
    }
  }

  lemma {:induction false} WritesFollow(p: Pages, ws: seq<HeaderWrite>, places: set<Place>, frameSize: nat)
    requires PageSized(p, frameSize) && Readable(p, places, frameSize) && Spaced(places)
    requires AllWritable(ws, frameSize) && InPlaces(ws, places)
    ensures ReadHeaders(AfterWrites(p, ws, frameSize), places) == H.Written(ReadHeaders(p, places), ws)
    decreases |ws|
  {
    if ws == [] {
    } else {
      WriteFollows(p, ws[0], places, frameSize);
      WritesFollow(AfterWrite(p, ws[0], frameSize), ws[1..], places, frameSize);
    }
  }

  /** Writes to one page leave the bytes of all others alone. */
  lemma {:induction false} WritesElsewhere(p: Pages, ws: seq<HeaderWrite>, pid: int, number: int, key: PageKey,
                                           frameSize: nat)
    requires PageSized(p, frameSize) && AllWritable(ws, frameSize) && H.AllTo(ws, pid, number)
    requires key in p && key != PageKey(pid, number)
    ensures AfterWrites(p, ws, frameSize)[key] == p[key]
    decreases |ws|
  {
    if ws == [] {
    } else {
      WritesElsewhere(AfterWrite(p, ws[0], frameSize), ws[1..], pid, number, key, frameSize);
    }
  }

  // ---------------------------------------------------------------- requests

  /** The headers of a request are writable: they lie in the page, and their sizes fit a word. */
  lemma RequestWritable(ps: seq<HeapPage>, pid: int, bytes: nat, frameSize: nat)
    requires TableValid(ps, frameSize) && FirstPage(ps, pid, bytes) < |ps| && frameSize < 0x8000_0000
    ensures AllWritable(Headers(ps, pid, bytes), frameSize)
  {
    var k, n := FirstPage(ps, pid, bytes), SourcePage(ps, pid, bytes);
    var own, ws := Served(ps, pid, bytes)[k].blocks, Headers(ps, pid, bytes);
    HeadersInPage(ps, pid, bytes, frameSize);
    Inside(ps[n].blocks, frameSize, FirstFit(ps[n].blocks, bytes));
    TakenBlock(ps, pid, bytes);
    LastSized(ps, pid, bytes, frameSize);
    forall i | 0 <= i < |ws|
      ensures Writable(ws[i], frameSize)
    {
      assert ws[i] in ws;
    }
  }

  lemma LastSized(ps: seq<HeapPage>, pid: int, bytes: nat, frameSize: nat)
    requires TableValid(ps, frameSize) && FirstPage(ps, pid, bytes) < |ps|
    ensures var own := Served(ps, pid, bytes)[FirstPage(ps, pid, bytes)].blocks;
            own != [] && 0 <= own[|own| - 1].size <= frameSize
  {
    var k, n := FirstPage(ps, pid, bytes), SourcePage(ps, pid, bytes);
    var own := Served(ps, pid, bytes)[k].blocks;
    ServedPages(ps, pid, bytes);
    if Home(ps, pid, bytes) {
      ServedWell(ps, pid, bytes, frameSize);
      Inside(own, frameSize, |own| - 1);
    } else {
      Inside(ps[k].blocks, frameSize, |ps[k].blocks| - 1);
      Inside(ps[n].blocks, frameSize, FirstFit(ps[n].blocks, bytes));
      A.CutsAbroad(ps, pid, bytes);
    }
  }

  /**
   A request leaves the headers of all blocks standing in memory exactly if the block came from the process's own page
   and the block and the last one there are as their headers say.
   */
  lemma RequestStands(p: Pages, ps: seq<HeapPage>, pid: int, bytes: nat, frameSize: nat)
    requires TableValid(ps, frameSize) && FirstPage(ps, pid, bytes) < |ps| && 0 <= pid && frameSize < 0x8000_0000
    requires PageSized(p, frameSize) && TableStands(p, ps)
    ensures AllWritable(Headers(ps, pid, bytes), frameSize)
    ensures var bs := ps[FirstPage(ps, pid, bytes)].blocks;
            TableStands(AfterWrites(p, Headers(ps, pid, bytes), frameSize), Served(ps, pid, bytes)) <==>
            Home(ps, pid, bytes) && H.Recorded(bs, FirstFit(bs, bytes), bytes)
  {
    RequestWritable(ps, pid, bytes, frameSize);
    if Home(ps, pid, bytes) {
      HomeStands(p, ps, pid, bytes, frameSize);
    } else {
      AbroadStands(p, ps, pid, bytes, frameSize);
    }
  }

  lemma HomeStands(p: Pages, ps: seq<HeapPage>, pid: int, bytes: nat, frameSize: nat)
    requires TableValid(ps, frameSize) && FirstPage(ps, pid, bytes) < |ps| && 0 <= pid
    requires Home(ps, pid, bytes) && AllWritable(Headers(ps, pid, bytes), frameSize)
    requires PageSized(p, frameSize) && TableStands(p, ps)
    ensures var bs := ps[FirstPage(ps, pid, bytes)].blocks;
            TableStands(AfterWrites(p, Headers(ps, pid, bytes), frameSize), Served(ps, pid, bytes)) <==>
            H.Recorded(bs, FirstFit(bs, bytes), bytes)
  {
    var t, ws := Served(ps, pid, bytes), Headers(ps, pid, bytes);
    var places := Places(t);
    HomePlaces(ps, pid, bytes, frameSize);
    StillReadable(p, ps, t, frameSize);
    Follows(p, ps, t, ws, places, frameSize);
    H.AllocDescribes(ReadHeaders(p, places), ps, pid, bytes, frameSize);
  }

  /** Bytes and headers go the same way. */
  lemma Follows(p: Pages, ps: seq<HeapPage>, t: seq<HeapPage>, ws: seq<HeaderWrite>, places: set<Place>,
                frameSize: nat)
    requires PageSized(p, frameSize) && Readable(p, places, frameSize) && Spaced(places)
    requires Places(ps) <= places && Places(t) <= places && Filled(ps) && Filled(t)
    requires AllWritable(ws, frameSize) && InPlaces(ws, places)
    ensures TableStands(p, ps) <==> H.TableDescribed(ReadHeaders(p, places), ps)
    ensures TableStands(AfterWrites(p, ws, frameSize), t) <==>
              H.TableDescribed(H.Written(ReadHeaders(p, places), ws), t)
  {
    StandsIsDescribed(p, ps, places, frameSize);
    WritesFollow(p, ws, places, frameSize);
    StandsIsDescribed(AfterWrites(p, ws, frameSize), t, places, frameSize);
  }

  lemma HomePlaces(ps: seq<HeapPage>, pid: int, bytes: nat, frameSize: nat)
    requires TableValid(ps, frameSize) && FirstPage(ps, pid, bytes) < |ps| && 0 <= pid && Home(ps, pid, bytes)
    ensures var t := Served(ps, pid, bytes);
            TableValid(t, frameSize) && SameNames(ps, t) && Places(ps) <= Places(t) &&
            InPlaces(Headers(ps, pid, bytes), Places(t))
  {
    var k, t := FirstPage(ps, pid, bytes), Served(ps, pid, bytes);
    ServedPages(ps, pid, bytes);
    ServedWell(ps, pid, bytes, frameSize);
    H.HeadersOfBlocks(ps, pid, bytes, frameSize);
    HeadersInPlaces(Headers(ps, pid, bytes), t, k);
    ServedAtHome(ps, pid, bytes, frameSize);
    GrantedPlaces(ps, k, FirstFit(ps[k].blocks, bytes), bytes, t);
  }

  lemma HeadersInPlaces(ws: seq<HeaderWrite>, ps: seq<HeapPage>, k: nat)
    requires k < |ps| && 0 <= ps[k].pid && forall w :: w in ws ==> IsHeaderOf(w, ps[k])
    ensures InPlaces(ws, Places(ps))
  {
    forall i | 0 <= i < |ws|
      ensures (ws[i].pid, ws[i].number, ws[i].offset) in Places(ps)
    {
      assert IsHeaderOf(ws[i], ps[k]);
    }
  }

  lemma GrantedPlaces(ps: seq<HeapPage>, k: nat, j: nat, bytes: nat, t: seq<HeapPage>)
    requires k < |ps| && SpecialLast(ps[k].blocks) && j < |ps[k].blocks|
    requires t == WithBlocks(ps, k, Granted(ps[k].blocks, j, bytes))
    ensures Places(ps) <= Places(t)
  {
    forall a | a in Places(ps)
      ensures a in Places(t)
    {
      var i, b := PlaceOf(ps, a);
      if i == k {
        var o := GrantKeepsPlace(ps[k].blocks, j, bytes, b);
        assert t[k].blocks[o].offset == ps[k].blocks[b].offset;
      } else {
        assert t[i] == ps[i];
      }
    }
  }

  lemma GrantKeepsPlace(bs: seq<Block>, j: nat, bytes: nat, i: nat) returns (o: nat)
    requires SpecialLast(bs) && j < |bs| && i < |bs|
    ensures o < |Granted(bs, j, bytes)| && Granted(bs, j, bytes)[o].offset == bs[i].offset
  {
    o := if i <= j then i else i + |Granted(bs, j, bytes)| - |bs|;
  }

  ghost predicate SameNames(ps: seq<HeapPage>, t: seq<HeapPage>) {
    |t| == |ps| && forall i :: 0 <= i < |ps| ==> t[i].pid == ps[i].pid && t[i].number == ps[i].number
  }

  lemma StillReadable(p: Pages, ps: seq<HeapPage>, t: seq<HeapPage>, frameSize: nat)
    requires TableStands(p, ps) && SameNames(ps, t) && TableValid(t, frameSize)
    ensures Readable(p, Places(t), frameSize) && Spaced(Places(t))
  {
    PlacesSpaced(t, frameSize);
    forall a | a in Places(t)
      ensures PageKey(a.0, a.1) in p
    {
      var i, j := PlaceOf(t, a);
      assert PageStands(p, ps[i]);
    }
  }

  /** Abroad the block is taken in one page and its header is written to another. */
  lemma AbroadStands(p: Pages, ps: seq<HeapPage>, pid: int, bytes: nat, frameSize: nat)
    requires TableValid(ps, frameSize) && FirstPage(ps, pid, bytes) < |ps| && 0 <= pid
    requires !Home(ps, pid, bytes) && AllWritable(Headers(ps, pid, bytes), frameSize)
    requires PageSized(p, frameSize) && TableStands(p, ps)
    ensures !TableStands(AfterWrites(p, Headers(ps, pid, bytes), frameSize), Served(ps, pid, bytes))
  {
    var n, i, j := TakenAbroad(ps, pid, bytes, frameSize);
    var t, key := Served(ps, pid, bytes)[n], PageKey(ps[n].pid, ps[n].number);
    H.HeadersTo(ps, pid, bytes);
    assert PageStands(p, ps[n]);
    WritesElsewhere(p, Headers(ps, pid, bytes), pid, ps[FirstPage(ps, pid, bytes)].number, key, frameSize);
    NotBoth(p[key], ps[n].blocks[i], t.blocks[j]);
    assert !PageStands(AfterWrites(p, Headers(ps, pid, bytes), frameSize), t);
  }

  lemma NotBoth(content: seq<byte>, a: Block, b: Block)
    requires Stands(content, a) && a.offset == b.offset && a.used != b.used
    ensures !Stands(content, b)
  {
  }

  /** A block of another process's page is free before and used after. */
  lemma TakenAbroad(ps: seq<HeapPage>, pid: int, bytes: nat, frameSize: nat) returns (n: nat, i: nat, j: nat)
    requires TableValid(ps, frameSize) && FirstPage(ps, pid, bytes) < |ps| && 0 <= pid && !Home(ps, pid, bytes)
    ensures var t := Served(ps, pid, bytes);
            n < |ps| == |t| && 0 <= ps[n].pid && ps[n].pid != pid &&
            t[n].pid == ps[n].pid && t[n].number == ps[n].number &&
            i < |ps[n].blocks| && j < |t[n].blocks| && ps[n].blocks[i].offset == t[n].blocks[j].offset &&
            !ps[n].blocks[i].used && t[n].blocks[j].used
  {
    n, j := SourcePage(ps, pid, bytes), TakenIndex(ps, pid, bytes);
    i := FirstFit(ps[n].blocks, bytes);
    ServedPages(ps, pid, bytes);
    SearchByNumber(ps, pid, bytes);
    H.UsedAbroad(ps, pid, bytes);
  }

  // ---------------------------------------------------------------- new pages

  /** The headers of a new page stand in it, whatever stood there. */
  lemma NewPageStands(p: Pages, ps: seq<HeapPage>, pid: int, base: nat, bytes: nat, frameSize: nat)
    requires TableValid(ps, frameSize) && bytes + 2 * HEADER <= frameSize < 0x8000_0000 && 0 <= pid
    requires PageSized(p, frameSize) && TableStands(p, ps) && PageKey(pid, NextNumber(ps, pid, base)) in p
    ensures var ws := NewHeaders(pid, NextNumber(ps, pid, base), bytes, frameSize);
            AllWritable(ws, frameSize) &&
            TableStands(AfterWrites(p, ws, frameSize), ps + [NewPage(ps, pid, base, bytes, frameSize)])
  {
    var page := NewPage(ps, pid, base, bytes, frameSize);
    var ws := NewHeaders(pid, NextNumber(ps, pid, base), bytes, frameSize);
    NewPageIs(ps, pid, base, bytes, frameSize);
    NewPageWell(ps, pid, base, bytes, frameSize);
    NewHeadersOfPage(ps, pid, base, bytes, frameSize);
    AddedFollows(p, ps, page, ws, frameSize);
    H.NewPageDescribed(ReadHeaders(p, Places(ps + [page])), ps, pid, base, bytes, frameSize);
  }

  lemma NewHeadersOfPage(ps: seq<HeapPage>, pid: int, base: nat, bytes: nat, frameSize: nat)
    requires bytes + 2 * HEADER <= frameSize < 0x8000_0000
    ensures var ws := NewHeaders(pid, NextNumber(ps, pid, base), bytes, frameSize);
            AllWritable(ws, frameSize) &&
            forall w :: w in ws ==> IsHeaderOf(w, NewPage(ps, pid, base, bytes, frameSize))
  {
    var page := NewPage(ps, pid, base, bytes, frameSize);
    var ws := NewHeaders(pid, NextNumber(ps, pid, base), bytes, frameSize);
    NewPageIs(ps, pid, base, bytes, frameSize);
    assert ws[0].offset == page.blocks[0].offset - HEADER && ws[1].offset == page.blocks[1].offset - HEADER;
  }

  lemma AddedFollows(p: Pages, ps: seq<HeapPage>, page: HeapPage, ws: seq<HeaderWrite>, frameSize: nat)
    requires PageSized(p, frameSize) && TableStands(p, ps) && PageKey(page.pid, page.number) in p && 0 <= page.pid
    requires TableValid(ps, frameSize) && TableValid(ps + [page], frameSize)
    requires AllWritable(ws, frameSize) && forall w :: w in ws ==> IsHeaderOf(w, page)
    ensures var h, t := ReadHeaders(p, Places(ps + [page])), ps + [page];
            H.TableDescribed(h, ps) &&
            (TableStands(AfterWrites(p, ws, frameSize), t) <==> H.TableDescribed(H.Written(h, ws), t))
  {
    var t := ps + [page];
    PlacesSpaced(t, frameSize);
    GrownPlaces(p, ps, page);
    assert t[|ps|] == page;
    HeadersInPlaces(ws, t, |ps|);
    Follows(p, ps, t, ws, Places(t), frameSize);
  }

  lemma GrownPlaces(p: Pages, ps: seq<HeapPage>, page: HeapPage)
    requires TableStands(p, ps) && PageKey(page.pid, page.number) in p
    ensures Places(ps) <= Places(ps + [page])
    ensures forall a :: a in Places(ps + [page]) ==> PageKey(a.0, a.1) in p
  {
    var t := ps + [page];
    forall a | a in Places(t)
      ensures PageKey(a.0, a.1) in p
    {
      var i, j := PlaceOf(t, a);
      if i < |ps| { assert PageStands(p, ps[i]); }
    }
    forall a | a in Places(ps)
      ensures a in Places(t)
    {
      var i, j := PlaceOf(ps, a);
      assert t[i] == ps[i];
    }
  }

  // ---------------------------------------------------------------- releases

  /** Merges write at places that are there already, and leave fewer of them. */
  lemma {:induction false} MergesIn(page: HeapPage, n: nat, places: set<Place>, frameSize: nat)
    requires WellFormed(page.blocks, frameSize) && PageIn(page, places) && frameSize < 0x8000_0000
    ensures InPlaces(MergeHeaders(page, n), places) && AllWritable(MergeHeaders(page, n), frameSize)
    ensures PageIn(page.(blocks := MergedTimes(page.blocks, n)), places)
    decreases n
  {
    if n == 0 || |page.blocks| <= FirstPair(page.blocks) + 1 {
    } else {
      var w, next := OneMergeIn(page, n, places, frameSize);
      MergesIn(next, n - 1, places, frameSize);
      FirstThenRest(w, MergeHeaders(next, n - 1), places, frameSize);
      assert page.(blocks := MergedTimes(page.blocks, n)) == next.(blocks := MergedTimes(next.blocks, n - 1));
    }
  }

  lemma OneMergeIn(page: HeapPage, n: nat, places: set<Place>, frameSize: nat)
    returns (w: HeaderWrite, next: HeapPage)
    requires WellFormed(page.blocks, frameSize) && PageIn(page, places) && frameSize < 0x8000_0000
    requires n != 0 && FirstPair(page.blocks) + 1 < |page.blocks|
    ensures WellFormed(next.blocks, frameSize) && PageIn(next, places)
    ensures Writable(w, frameSize) && (w.pid, w.number, w.offset) in places
    ensures next.pid == page.pid && next.number == page.number
    ensures MergeHeaders(page, n) == [w] + MergeHeaders(next, n - 1)
    ensures MergedTimes(page.blocks, n) == MergedTimes(next.blocks, n - 1)
  {
    var bs, i := page.blocks, FirstPair(page.blocks);
    w := HeaderWrite(page.pid, page.number, bs[i].offset - HEADER, Merge(bs[i], bs[i + 1]).size, true);
    next := page.(blocks := MergedAt(bs, i));
    MergedWell(bs, frameSize, i);
    MergedIn(page, i, places, frameSize);
    H.NextHeaders(page, n);
  }

  lemma MergedIn(page: HeapPage, i: nat, places: set<Place>, frameSize: nat)
    requires WellFormed(page.blocks, frameSize) && PageIn(page, places) && i + 1 < |page.blocks|
    requires WellFormed(MergedAt(page.blocks, i), frameSize)
    ensures PageIn(page.(blocks := MergedAt(page.blocks, i)), places)
    ensures (page.pid, page.number, page.blocks[i].offset - HEADER) in places
    ensures HEADER <= page.blocks[i].offset
    ensures 0 <= Merge(page.blocks[i], page.blocks[i + 1]).size <= frameSize - page.blocks[i].offset
  {
    var m := MergedAt(page.blocks, i);
    Inside(m, frameSize, i);
    forall b | 0 <= b < |m|
      ensures m[b].offset == page.blocks[if b <= i then b else b + 1].offset
    {
    }
  }

  lemma TakenPlaces(ps: seq<HeapPage>, k: nat, j: nat, n: nat, released: bool, frameSize: nat,
                    ws: seq<HeaderWrite>, t: seq<HeapPage>)
    requires TableValid(ps, frameSize) && H.Releases(ps, k, j, n, released, ws, t) && frameSize < 0x8000_0000
    ensures AllWritable(ws, frameSize) && InPlaces(ws, Places(ps)) && Places(t) <= Places(ps)
  {
    var freed, b := ps[k].(blocks := Freed(ps[k].blocks, j)), ps[k].blocks[j];
    FreedWell(ps[k].blocks, j, frameSize);
    Inside(ps[k].blocks, frameSize, j);
    FreedIn(ps, k, j);
    MergesIn(freed, n, Places(ps), frameSize);
    FirstThenRest(HeaderWrite(ps[k].pid, ps[k].number, b.offset - HEADER, b.size, true), MergeHeaders(freed, n),
                  Places(ps), frameSize);
    CompactedIn(ps, k, freed, n, released);
  }

  lemma FreedIn(ps: seq<HeapPage>, k: nat, j: nat)
    requires k < |ps| && 0 <= ps[k].pid && j < |ps[k].blocks|
    ensures PageIn(ps[k].(blocks := Freed(ps[k].blocks, j)), Places(ps))
    ensures (ps[k].pid, ps[k].number, ps[k].blocks[j].offset - HEADER) in Places(ps)
  {
    var freed := ps[k].(blocks := Freed(ps[k].blocks, j));
    forall i | 0 <= i < |freed.blocks|
      ensures (freed.pid, freed.number, freed.blocks[i].offset - HEADER) in Places(ps)
    {
      assert freed.blocks[i].offset == ps[k].blocks[i].offset;
    }
  }

  lemma FirstThenRest(w: HeaderWrite, ws: seq<HeaderWrite>, places: set<Place>, frameSize: nat)
    requires Writable(w, frameSize) && (w.pid, w.number, w.offset) in places
    requires AllWritable(ws, frameSize) && InPlaces(ws, places)
    ensures AllWritable([w] + ws, frameSize) && InPlaces([w] + ws, places)
  {
  }

  lemma CompactedIn(ps: seq<HeapPage>, k: nat, freed: HeapPage, n: nat, released: bool)
    requires k < |ps| && 0 <= ps[k].pid && PageIn(freed.(blocks := MergedTimes(freed.blocks, n)), Places(ps))
    requires freed.pid == ps[k].pid && freed.number == ps[k].number
    ensures Places(Compacting(ps[k := freed], k, n, released)) <= Places(ps)
  {
    var t, m := Compacting(ps[k := freed], k, n, released), MergedTimes(freed.blocks, n);
    forall a | a in Places(t)
      ensures a in Places(ps)
    {
      var i, j := PlaceOf(t, a);
      if |t| == |ps| && i == k {
        assert t[k].blocks[j].offset == m[j].offset;
      } else {
        assert t[i] == ps[if |t| == |ps| || i < k then i else i + 1];
      }
    }
  }

  /** A release leaves the headers of all blocks standing, however many of the merges memory takes the header of. */
  lemma ReleaseStands(p: Pages, ps: seq<HeapPage>, pid: int, number: int, offset: int, accepted: nat, released: bool,
                      frameSize: nat)
    requires TableValid(ps, frameSize) && 0 <= pid && Frees(ps, pid, number, offset) && 0 < accepted
    requires PageSized(p, frameSize) && TableStands(p, ps) && frameSize < 0x8000_0000
    ensures var ws := ReleasedHeaders(ps, pid, number, offset, accepted);
            AllWritable(ws, frameSize) &&
            TableStands(AfterWrites(p, ws, frameSize), ReleasedTable(ps, pid, number, offset, accepted, released))
  {
    var k, j, ws, t := H.ReleaseParts(ps, pid, number, offset, accepted, released);
    FreeWell(ps, pid, number, offset, accepted, released, frameSize);
    TakenStands(p, ps, k, j, accepted - 1, released, frameSize, ws, t);
  }

  lemma TakenStands(p: Pages, ps: seq<HeapPage>, k: nat, j: nat, n: nat, released: bool, frameSize: nat,
                    ws: seq<HeaderWrite>, t: seq<HeapPage>)
    requires TableValid(ps, frameSize) && TableValid(t, frameSize) && H.Releases(ps, k, j, n, released, ws, t)
    requires PageSized(p, frameSize) && TableStands(p, ps) && frameSize < 0x8000_0000
    ensures AllWritable(ws, frameSize) && TableStands(AfterWrites(p, ws, frameSize), t)
  {
    TakenFollows(p, ps, k, j, n, released, frameSize, ws, t);
    H.TakenDescribed(ReadHeaders(p, Places(ps)), ps, k, j, n, released, frameSize, ws, t);
  }

  lemma TakenFollows(p: Pages, ps: seq<HeapPage>, k: nat, j: nat, n: nat, released: bool, frameSize: nat,
                     ws: seq<HeaderWrite>, t: seq<HeapPage>)
    requires TableValid(ps, frameSize) && Filled(ps) && Filled(t) && H.Releases(ps, k, j, n, released, ws, t)
    requires PageSized(p, frameSize) && TableStands(p, ps) && frameSize < 0x8000_0000
    ensures AllWritable(ws, frameSize)
    ensures var h := ReadHeaders(p, Places(ps));
            H.TableDescribed(h, ps) &&
            (TableStands(AfterWrites(p, ws, frameSize), t) <==> H.TableDescribed(H.Written(h, ws), t))
  {
    StillReadable(p, ps, ps, frameSize);
    TakenPlaces(ps, k, j, n, released, frameSize, ws, t);
    Follows(p, ps, t, ws, Places(ps), frameSize);
  }

  // ---------------------------------------------------------------- the dump

  /** The size and flag of each block. */
  function Lines(bs: seq<Block>): seq<(int, byte)> {
    if bs == [] then [] else [(bs[0].size, Flag(!bs[0].used))] + Lines(bs[1..])
  }

  /**
   What the dump of a heap page prints from an offset on, and whether it gets to the end of the page: a header that
   sticks out of it, or that does not lead forward, is where it gets lost.
   */
  function Walk(frame: seq<byte>, at: nat): (seq<(int, byte)>, bool)
    decreases |frame| - at
  {
    if |frame| <= at then ([], true)
    else if |frame| < at + HEADER then ([], false)
    else
      var (size, flag) := HeaderIn(frame, at);
      if size + HEADER <= 0 then ([(size as int, flag)], false)
      else
        var (rest, complete) := Walk(frame, at + size + HEADER);
        ([(size as int, flag)] + rest, complete)
  }

  /** `dumpContenido` for one frame of a heap page. */
  method Dump(frame: seq<byte>) returns (lines: seq<(int, byte)>, complete: bool)
    ensures (lines, complete) == Walk(frame, 0)
  {
    lines := [];
    var at := 0;
    assert Walk(frame, 0).0 == [] + Walk(frame, 0).0;
    while at < |frame|
      invariant 0 <= at && Walk(frame, 0).0 == lines + Walk(frame, at).0 && Walk(frame, 0).1 == Walk(frame, at).1
      decreases |frame| - at
    {
      assert lines + [] == lines;
      if |frame| < at + HEADER {
        return lines, false;
      }
      var (size, flag) := HeaderIn(frame, at);
      ghost var before := lines;
      lines := lines + [(size as int, flag)];
      if size + HEADER <= 0 {
        return lines, false;
      }
      Assoc(before, (size as int, flag), Walk(frame, at + size + HEADER).0);
      at := at + size + HEADER;
    }
    return lines, true;
  }

  lemma Assoc<T>(xs: seq<T>, x: T, ys: seq<T>)
    ensures xs + ([x] + ys) == xs + [x] + ys
  {
  }

  lemma OneMore<T>(x: T, xs: seq<T>, ys: seq<T>)
    ensures [x] + xs == [x] + ys <==> xs == ys
  {
    assert ([x] + xs)[1..] == xs && ([x] + ys)[1..] == ys;
  }

  /** The walk goes on behind a block as it should exactly if the header of the block stands. */
  lemma WalkOne(frame: seq<byte>, b: Block, rest: seq<(int, byte)>)
    requires HEADER <= b.offset && 0 <= b.size && b.End() <= |frame|
    ensures Walk(frame, b.offset - HEADER) == ([(b.size, Flag(!b.used))] + rest, true) <==>
              Stands(frame, b) && Walk(frame, b.End()) == (rest, true)
  {
    var line := (b.size, Flag(!b.used));
    if Stands(frame, b) {
      OneMore(line, Walk(frame, b.End()).0, rest);
    } else {
      assert ([line] + rest)[0] == line;
    }
  }

  ghost predicate AllStand(frame: seq<byte>, bs: seq<Block>) {
    bs == [] || (Stands(frame, bs[0]) && AllStand(frame, bs[1..]))
  }

  /** Blocks that fill the page from `at` to its end. */
  ghost predicate FilledFrom(frame: seq<byte>, bs: seq<Block>, at: nat) {
    if bs == [] then at == |frame|
    else
      at + HEADER == bs[0].offset && 0 <= bs[0].size && bs[0].End() <= |frame| &&
      FilledFrom(frame, bs[1..], bs[0].End())
  }

  lemma {:induction false} WalkFrom(frame: seq<byte>, bs: seq<Block>, at: nat)
    requires FilledFrom(frame, bs, at)
    ensures Walk(frame, at) == (Lines(bs), true) <==> AllStand(frame, bs)
    decreases |bs|
  {
    if bs == [] {
    } else {
      WalkFrom(frame, bs[1..], bs[0].End());
      WalkOne(frame, bs[0], Lines(bs[1..]));
    }
  }

  lemma {:induction false} TiledFills(frame: seq<byte>, bs: seq<Block>, i: nat)
    requires Tiled(bs, |frame|) && Sized(bs) && i < |bs|
    ensures HEADER <= bs[i].offset && FilledFrom(frame, bs[i..], bs[i].offset - HEADER)
    decreases |bs| - i
  {
    Inside(bs, |frame|, i);
    if |bs| <= i + 1 {
      assert bs[i..][1..] == [];
    } else {
      TiledFills(frame, bs, i + 1);
      assert bs[i + 1].offset == bs[i].End() + HEADER;
      assert bs[i..][1..] == bs[i + 1..];
    }
  }

  lemma {:induction false} AllStandEach(frame: seq<byte>, bs: seq<Block>)
    ensures AllStand(frame, bs) <==> forall j :: 0 <= j < |bs| ==> Stands(frame, bs[j])
  {
    if bs == [] {
    } else {
      AllStandEach(frame, bs[1..]);
      assert forall j :: 1 <= j < |bs| ==> bs[j] == bs[1..][j - 1];
    }
  }

  /** A dump of a heap page prints the kernel's blocks if and only if their headers stand there. */
  lemma DumpTells(frame: seq<byte>, bs: seq<Block>)
    requires Tiled(bs, |frame|) && Sized(bs)
    ensures Walk(frame, 0) == (Lines(bs), true) <==> forall j :: 0 <= j < |bs| ==> Stands(frame, bs[j])
  {
    TiledFills(frame, bs, 0);
    assert bs[0..] == bs;
    WalkFrom(frame, bs, 0);
    AllStandEach(frame, bs);
  }

  /** Dumps print the kernel's table, page by page, if and only if its headers stand in memory. */
  lemma DumpsTell(p: Pages, ps: seq<HeapPage>, frameSize: nat)
    requires TableValid(ps, frameSize) && PageSized(p, frameSize)
    ensures TableStands(p, ps) <==>
              forall i :: 0 <= i < |ps| && 0 <= ps[i].pid ==>
                PageKey(ps[i].pid, ps[i].number) in p &&
                Walk(p[PageKey(ps[i].pid, ps[i].number)], 0) == (Lines(ps[i].blocks), true)
  {
    forall i | 0 <= i < |ps| && 0 <= ps[i].pid && PageKey(ps[i].pid, ps[i].number) in p
      ensures PageStands(p, ps[i]) <==>
                Walk(p[PageKey(ps[i].pid, ps[i].number)], 0) == (Lines(ps[i].blocks), true)
    {
      DumpTells(p[PageKey(ps[i].pid, ps[i].number)], ps[i].blocks);
    }
  }
}
