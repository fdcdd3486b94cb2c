/**
 The inverted page table of the memory server: one 8-byte entry (pid, page) per frame, kept in the
 first bytes of the very memory it describes, searched by hash with circular probing.
 */
module PageTable {
  import opened Bytes
  import opened Rounding

  const EMPTY: int32 := -1
  const RESERVED: int32 := -2

  datatype PageKey = PageKey(pid: int, page: int)

  datatype Frame = Frame(pid: int32, page: int32) {
    predicate Owned() { 0 <= pid }
    function Key(): PageKey { PageKey(pid, page) }
  }

  // ---------------------------------------------------------------- layout

  /** The `w`-th 4-byte word of the memory. */
  function Word(m: seq<byte>, w: nat): int32
    requires 4 * w + 4 <= |m|
  {
    DecodeInt32(m[4 * w..4 * w + 4])
  }

  function DecodeFrame(m: seq<byte>, f: nat): Frame
    requires 8 * f + 8 <= |m|
  {
    Frame(Word(m, 2 * f), Word(m, 2 * f + 1))
  }

  /** The table that the bytes of the memory encode. */
  function TableOf(m: seq<byte>, frames: nat): (t: seq<Frame>)
    requires 8 * frames <= |m|
    ensures |t| == frames
  {
    if frames == 0 then [] else TableOf(m, frames - 1) + [DecodeFrame(m, frames - 1)]
  }

  lemma {:induction false} TableAt(m: seq<byte>, frames: nat, f: nat)
    requires f < frames && 8 * frames <= |m|
    ensures TableOf(m, frames)[f] == DecodeFrame(m, f)
  {
    if frames - 1 <= f {
    } else {
      TableAt(m, frames - 1, f);
    }
  }

  /** Two memories that encode the same entries encode the same table. */
  lemma {:induction false} SameTable(m: seq<byte>, m': seq<byte>, frames: nat)
    requires 8 * frames <= |m| && 8 * frames <= |m'|
    requires forall f :: 0 <= f < frames ==> DecodeFrame(m', f) == DecodeFrame(m, f)
    ensures TableOf(m', frames) == TableOf(m, frames)
  {
    if frames == 0 {
    } else {
      SameTable(m, m', frames - 1);
    }
  }

  /** Frames set aside for the table itself: its size in bytes divided by the frame size, rounded up. */
  function ReservedFrames(frames: nat, frameSize: nat): nat
    requires 0 < frameSize
  {
    CeilDiv(8 * frames, frameSize)
  }

  /** The content of frame `f`. */
  function FrameBytes(m: seq<byte>, frames: nat, frameSize: nat, f: nat): (page: seq<byte>)
    requires |m| == At(frames, frameSize) && f < frames
    ensures |page| == frameSize
  {
    FrameInside(f, frames, frameSize);
    m[At(f, frameSize)..At(f, frameSize) + frameSize]
  }

  /** The reserved frames are exactly as many as the table needs: enough, and not one more. */
  lemma ReservedCoverTable(frames: nat, frameSize: nat)
    requires 8 <= frameSize
    ensures ReservedFrames(frames, frameSize) <= frames
    ensures 8 * frames <= At(ReservedFrames(frames, frameSize), frameSize) < 8 * frames + frameSize
    ensures 8 * frames <= At(frames, frameSize)
  {
    var r := ReservedFrames(frames, frameSize);
    CeilDivCovers(8 * frames, frameSize);
    TableFits(frames, frameSize);
    if frames < r { FrameInside(frames, r, frameSize); }
  }

  lemma TableFits(frames: nat, frameSize: nat)
    requires 8 <= frameSize
    ensures 8 * frames <= At(frames, frameSize)
  {
  }

  /** No byte of an unreserved frame belongs to the table. */
  lemma UserFrameAboveTable(f: nat, frames: nat, frameSize: nat)
    requires 8 <= frameSize
    requires ReservedFrames(frames, frameSize) <= f < frames
    ensures 8 * frames <= At(f, frameSize)
    ensures At(f, frameSize) + frameSize <= At(frames, frameSize)
  {
    ReservedCoverTable(frames, frameSize);
    if ReservedFrames(frames, frameSize) < f { FrameInside(ReservedFrames(frames, frameSize), f, frameSize); }
    FrameInside(f, frames, frameSize);
  }

  // ---------------------------------------------------------------- stores

  /** A store into one word changes that word only. */
  lemma StoreWord(m: seq<byte>, w: nat, x: int32, v: nat)
    requires 4 * w + 4 <= |m| && 4 * v + 4 <= |m|
    ensures Word(Splice(m, 4 * w, EncodeInt32(x)), v) == if v == w then x else Word(m, v)
  {
    DecodeEncodeInt32(x);
    if v != w { SpliceElsewhere(m, 4 * w, EncodeInt32(x), 4 * v, 4 * v + 4); }
  }

  /** A store into one field of entry `f` changes that field of that entry and no other entry. */
  lemma StoreField(m: seq<byte>, f: nat, x: int32, g: nat)
    requires 8 * f + 8 <= |m| && 8 * g + 8 <= |m|
    ensures DecodeFrame(Splice(m, 4 * (2 * f), EncodeInt32(x)), g)
         == if g == f then DecodeFrame(m, f).(pid := x) else DecodeFrame(m, g)
    ensures DecodeFrame(Splice(m, 4 * (2 * f + 1), EncodeInt32(x)), g)
         == if g == f then DecodeFrame(m, f).(page := x) else DecodeFrame(m, g)
  {
    StoreWord(m, 2 * f, x, 2 * g);
    StoreWord(m, 2 * f, x, 2 * g + 1);
    StoreWord(m, 2 * f + 1, x, 2 * g);
    StoreWord(m, 2 * f + 1, x, 2 * g + 1);
  }

  lemma StorePid(m: seq<byte>, frames: nat, f: nat, pid: int32)
    requires f < frames && 8 * frames <= |m|
    ensures TableOf(Splice(m, 8 * f, EncodeInt32(pid)), frames)
         == TableOf(m, frames)[f := TableOf(m, frames)[f].(pid := pid)]
  {
    var m' := Splice(m, 8 * f, EncodeInt32(pid));
    assert 8 * f == 4 * (2 * f);
    forall g | 0 <= g < frames
      ensures DecodeFrame(m', g) == if g == f then DecodeFrame(m, f).(pid := pid) else DecodeFrame(m, g)
    {
      StoreField(m, f, pid, g);
    }
    TableAt(m, frames, f);
    ChangedTable(m, m', frames, f, DecodeFrame(m, f).(pid := pid));
  }

  lemma StorePage(m: seq<byte>, frames: nat, f: nat, page: int32)
    requires f < frames && 8 * frames <= |m|
    ensures TableOf(Splice(m, 8 * f + 4, EncodeInt32(page)), frames)
         == TableOf(m, frames)[f := TableOf(m, frames)[f].(page := page)]
  {
    var m' := Splice(m, 8 * f + 4, EncodeInt32(page));
    assert 8 * f + 4 == 4 * (2 * f + 1);
    forall g | 0 <= g < frames
      ensures DecodeFrame(m', g) == if g == f then DecodeFrame(m, f).(page := page) else DecodeFrame(m, g)
    {
      StoreField(m, f, page, g);
    }
    TableAt(m, frames, f);
    ChangedTable(m, m', frames, f, DecodeFrame(m, f).(page := page));
  }

  lemma ChangedTable(m: seq<byte>, m': seq<byte>, frames: nat, f: nat, e: Frame)
    requires f < frames && 8 * frames <= |m| && 8 * frames <= |m'|
    requires forall g :: 0 <= g < frames ==> DecodeFrame(m', g) == if g == f then e else DecodeFrame(m, g)
    ensures TableOf(m', frames) == TableOf(m, frames)[f := e]
  {
    forall g | 0 <= g < frames
      ensures TableOf(m', frames)[g] == TableOf(m, frames)[f := e][g]
    {
      TableAt(m, frames, g);
      TableAt(m', frames, g);
    }
  }

  /** A store into the table leaves the content of every unreserved frame alone. */
  lemma TableStoreKeepsFrame(m: seq<byte>, frames: nat, frameSize: nat, at: nat, data: seq<byte>, f: nat)
    requires 8 <= frameSize && |m| == At(frames, frameSize)
    requires at + |data| <= 8 * frames <= |m|
    requires ReservedFrames(frames, frameSize) <= f < frames
    ensures FrameBytes(Splice(m, at, data), frames, frameSize, f) == FrameBytes(m, frames, frameSize, f)
  {
    UserFrameAboveTable(f, frames, frameSize);
    SpliceElsewhere(m, at, data, At(f, frameSize), At(f, frameSize) + frameSize);
  }

  /**
   The table lives inside the managed memory, yet an in-page store to an unreserved frame cannot
   reach it: the store begins at or after byte 8 * frames.
   */
  lemma UserStoreKeepsTable(m: seq<byte>, frames: nat, frameSize: nat, f: nat, offset: nat, data: seq<byte>)
    requires 8 <= frameSize && |m| == At(frames, frameSize)
    requires ReservedFrames(frames, frameSize) <= f < frames
    requires offset + |data| <= frameSize
    ensures 8 * frames <= At(f, frameSize) + offset && At(f, frameSize) + offset + |data| <= |m|
    ensures TableOf(Splice(m, At(f, frameSize) + offset, data), frames) == TableOf(m, frames)
  {
    UserFrameAboveTable(f, frames, frameSize);
    var at := At(f, frameSize) + offset;
    forall g | 0 <= g < frames
      ensures DecodeFrame(Splice(m, at, data), g) == DecodeFrame(m, g)
    {
      SpliceElsewhere(m, at, data, 8 * g, 8 * g + 4);
      SpliceElsewhere(m, at, data, 8 * g + 4, 8 * g + 8);
    }
    SameTable(m, Splice(m, at, data), frames);
  }

  /** An in-page store changes the bytes of its own frame as asked ... */
  lemma UserStoreFrame(m: seq<byte>, frames: nat, frameSize: nat, f: nat, offset: nat, data: seq<byte>)
    requires |m| == At(frames, frameSize) && f < frames && offset + |data| <= frameSize
    ensures At(f, frameSize) + frameSize <= |m|
    ensures FrameBytes(Splice(m, At(f, frameSize) + offset, data), frames, frameSize, f)
         == Splice(FrameBytes(m, frames, frameSize, f), offset, data)
  {
    FrameInside(f, frames, frameSize);
    var lo := At(f, frameSize);
    SpliceWithin(m, lo + offset, data, lo, lo + frameSize);
  }

  /** ... and the bytes of no other frame. */
  lemma UserStoreOtherFrame(m: seq<byte>, frames: nat, frameSize: nat, f: nat, offset: nat, data: seq<byte>, g: nat)
    requires |m| == At(frames, frameSize) && f < frames && offset + |data| <= frameSize
    requires g < frames && g != f
    ensures At(f, frameSize) + frameSize <= |m|
    ensures FrameBytes(Splice(m, At(f, frameSize) + offset, data), frames, frameSize, g)
            == FrameBytes(m, frames, frameSize, g)
  {
    FrameInside(f, frames, frameSize);
    FrameInside(g, frames, frameSize);
    var at, lo := At(f, frameSize) + offset, At(g, frameSize);
    assert lo + frameSize <= at || at + |data| <= lo by {
      if g < f { FrameInside(g, f, frameSize); } else { FrameInside(f, g, frameSize); }
    }
    SpliceElsewhere(m, at, data, lo, lo + frameSize);
  }

  // ---------------------------------------------------------------- probing

  /** `funcionHash`, clamped to the last frame as both callers do. */
  function Start(frames: nat, pid: nat, page: nat): (s: nat)
    requires 0 < frames
    ensures s < frames
  {
    var h := frames / 100 * 4 + pid * (frames / 18) + page;
    if h >= frames then frames - 1 else h
  }

  /**
   The pages of a process begin next to each other, those of the next process an eighteenth of the memory further, and
   the very first page behind four frames in a hundred; nothing begins behind the last frame.
   */
  lemma StartSpreads(frames: nat, pid: nat, page: nat)
    requires 0 < frames
    ensures Start(frames, pid, page + 1) == if Start(frames, pid, page) + 1 < frames then Start(frames, pid, page) + 1
                                            else frames - 1
    ensures Start(frames, pid + 1, page) == if Start(frames, pid, page) + frames / 18 < frames then
                                              Start(frames, pid, page) + frames / 18
                                            else frames - 1
    ensures Start(frames, 0, 0) == 4 * (frames / 100)
  {
    assert (pid + 1) * (frames / 18) == pid * (frames / 18) + frames / 18;
    TimesGrows(0, pid, frames / 18);
  }

  /** The `i`-th frame visited by a circular search that begins at `start`. */
  function Probe(start: nat, i: nat, frames: nat): (f: nat)
    requires start < frames && i < frames
    ensures f < frames
  {
    if start + i < frames then start + i else start + i - frames
  }

  /** Circular probing visits every frame ... */
  lemma ProbeReaches(start: nat, f: nat, frames: nat) returns (i: nat)
    requires start < frames && f < frames
    ensures i < frames && Probe(start, i, frames) == f
  {
    i := if start <= f then f - start else f + frames - start;
  }

  /** ... and visits it once. */
  lemma ProbeInjective(start: nat, i: nat, j: nat, frames: nat)
    requires start < frames && i < frames && j < frames
    requires Probe(start, i, frames) == Probe(start, j, frames)
    ensures i == j
  {
  }

  /** What `escribirEnTablaDeFrame` looks for: the page itself when vacating, an empty frame when claiming. */
  predicate Wanted(e: Frame, vacate: bool, pid: int, page: int) {
    if vacate then e.pid == pid && e.page == page else e.pid == EMPTY
  }

  /** `f` is the first wanted frame in probe order from `start`. */
  ghost predicate FirstProbe(t: seq<Frame>, start: nat, vacate: bool, pid: int, page: int, f: nat)
    requires start < |t|
  {
    exists i :: 0 <= i < |t| && f == Probe(start, i, |t|) && Wanted(t[f], vacate, pid, page)
             && NoneWanted(t, start, vacate, pid, page, i)
  }

  /** None of the first `n` frames probed is wanted. */
  ghost predicate NoneWanted(t: seq<Frame>, start: nat, vacate: bool, pid: int, page: int, n: nat)
    requires start < |t| && n <= |t|
  {
    forall j :: 0 <= j < n ==> !Wanted(t[Probe(start, j, |t|)], vacate, pid, page)
  }

  /** If a full turn found nothing, there was nothing to find. */
  lemma ProbeExhausted(t: seq<Frame>, start: nat, vacate: bool, pid: int, page: int)
    requires start < |t|
    requires NoneWanted(t, start, vacate, pid, page, |t|)
    ensures forall f :: 0 <= f < |t| ==> !Wanted(t[f], vacate, pid, page)
  {
    forall f | 0 <= f < |t|
      ensures !Wanted(t[f], vacate, pid, page)
    {
      var i := ProbeReaches(start, f, |t|);
    }
  }

  // ---------------------------------------------------------------- ownership

  /** Each (pid, page) is held by at most one frame. */
  ghost predicate Unique(t: seq<Frame>) {
    forall f, g :: 0 <= f < |t| && 0 <= g < |t| && t[f].Owned() && t[f] == t[g] ==> f == g
  }

  ghost predicate Holds(t: seq<Frame>, k: PageKey) {
    exists f :: 0 <= f < |t| && t[f].Owned() && t[f].Key() == k
  }

  function CountPid(t: seq<Frame>, pid: int): (n: nat)
    ensures n <= |t|
  {
    if t == [] then 0 else CountPid(t[..|t| - 1], pid) + if t[|t| - 1].pid == pid then 1 else 0
  }

  /** The pages of every process are numbered 0, 1, ..., n - 1 with no gap. */
  ghost predicate Dense(t: seq<Frame>) {
    forall pid, page :: 0 <= pid ==> (Holds(t, PageKey(pid, page)) <==> 0 <= page < CountPid(t, pid))
  }

  /** The keys of the flat memory that the table describes. */
  ghost function Keys(t: seq<Frame>): set<PageKey> {
    set f | 0 <= f < |t| && t[f].Owned() :: t[f].Key()
  }

  lemma KeysAreHeld(t: seq<Frame>, k: PageKey)
    ensures k in Keys(t) <==> Holds(t, k)
  {
  }

  lemma CountUpdate(t: seq<Frame>, f: nat, e: Frame, pid: int)
    requires f < |t|
    ensures CountPid(t[f := e], pid)
         == CountPid(t, pid) - (if t[f].pid == pid then 1 else 0) + (if e.pid == pid then 1 else 0)
  {
    var last := |t| - 1;
    if f == last {
      assert t[f := e][..last] == t[..last];
    } else {
      assert t[f := e][..last] == t[..last][f := e];
      CountUpdate(t[..last], f, e, pid);
    }
  }

  lemma CountZero(t: seq<Frame>, pid: int)
    ensures CountPid(t, pid) == 0 <==> forall f :: 0 <= f < |t| ==> t[f].pid != pid
  {
    if t != [] {
      CountZero(t[..|t| - 1], pid);
      assert forall f :: 0 <= f < |t| - 1 ==> t[..|t| - 1][f] == t[f];
    }
  }

  lemma KeysSnoc(s: seq<Frame>, e: Frame)
    ensures Keys(s + [e]) == Keys(s) + if e.Owned() then {e.Key()} else {}
  {
    var t := s + [e];
    forall k | k in Keys(s)
      ensures k in Keys(t)
    {
      var f :| 0 <= f < |s| && s[f].Owned() && s[f].Key() == k;
      assert t[f].Key() == k;
    }
    if e.Owned() { assert t[|s|].Key() in Keys(t); }
  }

  /** Every frame is reserved, empty or owned by one key of the flat memory. */
  lemma {:induction false} Census(t: seq<Frame>)
    requires Unique(t)
    requires forall f :: 0 <= f < |t| ==> t[f].Owned() || t[f].pid == EMPTY || t[f].pid == RESERVED
    ensures |Keys(t)| + CountPid(t, EMPTY) + CountPid(t, RESERVED) == |t|
  {
    if t == [] {
    } else {
      var s, e := t[..|t| - 1], t[|t| - 1];
      assert t == s + [e];
      Census(s);
      KeysSnoc(s, e);
      assert forall f :: 0 <= f < |s| && s[f].Owned() ==> s[f] != e;
    }
  }

  /** Claiming an empty frame for a page nobody holds adds that one page. */
  lemma Claim(t: seq<Frame>, f: nat, e: Frame)
    requires f < |t| && t[f].pid == EMPTY && e.Owned() && Unique(t) && !Holds(t, e.Key())
    ensures Unique(t[f := e])
    ensures Keys(t[f := e]) == Keys(t) + {e.Key()}
    ensures forall k :: Holds(t[f := e], k) <==> Holds(t, k) || k == e.Key()
    ensures Dense(t) && e.page == CountPid(t, e.pid) ==> Dense(t[f := e])
  {
    var t' := t[f := e];
    forall g | 0 <= g < |t| && g != f && t[g].Owned() ensures t[g] != e {
      assert t[g].Key() != e.Key();
    }
    forall k ensures Holds(t', k) <==> Holds(t, k) || k == e.Key() {
      if Holds(t, k) {
        var g :| 0 <= g < |t| && t[g].Owned() && t[g].Key() == k;
        assert t'[g].Key() == k;
      }
      if k == e.Key() { assert t'[f].Key() == k; }
    }
    forall k ensures k in Keys(t') <==> k in Keys(t) + {e.Key()} {
      KeysAreHeld(t, k);
      KeysAreHeld(t', k);
    }
    if Dense(t) && e.page == CountPid(t, e.pid) {
      forall pid, page | 0 <= pid
        ensures Holds(t', PageKey(pid, page)) <==> 0 <= page < CountPid(t', pid)
      {
        CountUpdate(t, f, e, pid);
        assert Holds(t, PageKey(pid, page)) <==> 0 <= page < CountPid(t, pid);
      }
    }
  }

  /** The table after every frame of `pid` has been emptied. */
  function WithoutPid(t: seq<Frame>, pid: int): (r: seq<Frame>)
    ensures |r| == |t|
    ensures forall f :: 0 <= f < |t| ==> r[f] == if t[f].pid == pid then t[f].(pid := EMPTY) else t[f]
  {
    seq(|t|, f requires 0 <= f < |t| => if t[f].pid == pid then t[f].(pid := EMPTY) else t[f])
  }

  lemma WithoutNobody(t: seq<Frame>, pid: int)
    requires CountPid(t, pid) == 0
    ensures WithoutPid(t, pid) == t
  {
    CountZero(t, pid);
  }

  lemma {:induction false} WithoutPidCount(t: seq<Frame>, pid: int, q: int)
    requires 0 <= pid && 0 <= q
    ensures CountPid(WithoutPid(t, pid), q) == if q == pid then 0 else CountPid(t, q)
  {
    if t == [] {
    } else {
      var last := |t| - 1;
      WithoutPidCount(t[..last], pid, q);
      assert WithoutPid(t, pid)[..last] == WithoutPid(t[..last], pid);
    }
  }

  /** Ending a process removes its pages and nobody else's. */
  lemma Remove(t: seq<Frame>, pid: int)
    requires 0 <= pid && Unique(t)
    ensures Unique(WithoutPid(t, pid))
    ensures Keys(WithoutPid(t, pid)) == set k | k in Keys(t) && k.pid != pid
    ensures forall k :: Holds(WithoutPid(t, pid), k) <==> Holds(t, k) && k.pid != pid
    ensures Dense(t) ==> Dense(WithoutPid(t, pid))
  {
    var t' := WithoutPid(t, pid);
    forall k ensures Holds(t', k) <==> Holds(t, k) && k.pid != pid {
      if Holds(t, k) && k.pid != pid {
        var g :| 0 <= g < |t| && t[g].Owned() && t[g].Key() == k;
        assert t'[g].Key() == k;
      }
    }
    forall k ensures k in Keys(t') <==> k in Keys(t) && k.pid != pid {
      KeysAreHeld(t, k);
      KeysAreHeld(t', k);
    }
    if Dense(t) {
      forall q, page | 0 <= q
        ensures Holds(t', PageKey(q, page)) <==> 0 <= page < CountPid(t', q)
      {
        WithoutPidCount(t, pid, q);
        assert Holds(t, PageKey(q, page)) <==> 0 <= page < CountPid(t, q);
      }
    }
  }

  /** None of the `n` page numbers from `from` on is in use by `pid`. */
  ghost predicate FreshIds(t: seq<Frame>, pid: int, from: int, n: int) {
    forall k :: from <= k < from + n ==> !Holds(t, PageKey(pid, k))
  }

  /** `t` is `t0` after pages `from, ..., from + n - 1` of `pid` have each claimed an empty frame. */
  ghost predicate Claimed(t0: seq<Frame>, t: seq<Frame>, pid: nat, from: nat, n: nat) {
    && |t| == |t0|
    && (forall f :: 0 <= f < |t| && t0[f].pid != EMPTY ==> t[f] == t0[f])
    && (forall f :: 0 <= f < |t| && t0[f].pid == EMPTY ==>
          t[f].pid == EMPTY || (t[f].pid == pid && from <= t[f].page < from + n))
    && (forall k :: from <= k < from + n ==> Holds(t, PageKey(pid, k)))
    && CountPid(t, EMPTY) == CountPid(t0, EMPTY) - n
    && CountPid(t, pid) == CountPid(t0, pid) + n
  }

  /** Claims keep the table a function exactly while the page numbers they use are fresh. */
  ghost predicate ClaimedWell(t0: seq<Frame>, t: seq<Frame>, pid: nat, from: nat, n: nat) {
    && (Unique(t0) ==> (Unique(t) <==> FreshIds(t0, pid, from, n)))
    && (Unique(t0) && Dense(t0) && from == CountPid(t0, pid) ==> FreshIds(t0, pid, from, n) && Dense(t))
  }

  lemma ClaimStep(t0: seq<Frame>, t: seq<Frame>, t': seq<Frame>, pid: nat, from: nat, n: nat, f: nat, e: Frame)
    requires 0 < n && Claimed(t0, t, pid, from, n - 1) && ClaimedWell(t0, t, pid, from, n - 1)
    requires f < |t| && t[f].pid == EMPTY && e.pid == pid && e.page == from + n - 1 && t' == t[f := e]
    ensures Claimed(t0, t', pid, from, n)
    ensures ClaimedWell(t0, t', pid, from, n)
  {
    CountUpdate(t, f, e, EMPTY);
    CountUpdate(t, f, e, pid);
    forall k | from <= k < from + n
      ensures Holds(t', PageKey(pid, k))
    {
      if k < from + n - 1 {
        var g :| 0 <= g < |t| && t[g].Owned() && t[g].Key() == PageKey(pid, k);
        assert t'[g].Key() == PageKey(pid, k);
      } else {
        assert t'[f].Key() == PageKey(pid, k);
      }
    }
    if Holds(t0, e.Key()) {
      ClaimDuplicate(t0, t, t', f, e);
    } else if Unique(t) {
      assert !Holds(t, e.Key());
      Claim(t, f, e);
    } else {
      ClaimKeepsDuplicate(t, f, e);
    }
  }

  /** The table after the frames `fs`, in this order, have been claimed for pages `from, from + 1, ...` of `pid`. */
  function ClaimAll(t: seq<Frame>, pid: int32, from: int, fs: seq<nat>): (r: seq<Frame>)
    requires 0 <= from && from + |fs| < 0x8000_0000
    requires forall i :: 0 <= i < |fs| ==> fs[i] < |t|
    ensures |r| == |t|
  {
    if fs == [] then t
    else
      var last := |fs| - 1;
      ClaimAll(t, pid, from, fs[..last])[fs[last] := Frame(pid, from + last)]
  }

  /** Every frame of `fs` is empty when its turn comes. */
  ghost predicate Claimable(t: seq<Frame>, pid: int32, from: int, fs: seq<nat>)
  {
    && 0 <= from && from + |fs| < 0x8000_0000
    && (forall i :: 0 <= i < |fs| ==> fs[i] < |t|)
    && (fs == [] ||
        var last := |fs| - 1;
        Claimable(t, pid, from, fs[..last]) && ClaimAll(t, pid, from, fs[..last])[fs[last]].pid == EMPTY)
  }

  lemma ClaimAllSnoc(t: seq<Frame>, pid: int32, from: nat, fs: seq<nat>, f: nat)
    requires Claimable(t, pid, from, fs) && from + |fs| + 1 < 0x8000_0000
    requires f < |t| && ClaimAll(t, pid, from, fs)[f].pid == EMPTY
    ensures Claimable(t, pid, from, fs + [f])
    ensures ClaimAll(t, pid, from, fs + [f]) == ClaimAll(t, pid, from, fs)[f := Frame(pid, from + |fs|)]
  {
    assert (fs + [f])[..|fs|] == fs;
  }

  /** What a run of claims does to the table as a whole. */
  lemma {:induction false} ClaimAllFacts(t: seq<Frame>, pid: int32, from: nat, fs: seq<nat>)
    requires 0 <= pid && Claimable(t, pid, from, fs)
    ensures Claimed(t, ClaimAll(t, pid, from, fs), pid, from, |fs|)
    ensures ClaimedWell(t, ClaimAll(t, pid, from, fs), pid, from, |fs|)
  {
    if fs == [] {
      NothingClaimed(t, pid, from);
    } else {
      var last := |fs| - 1;
      ClaimAllFacts(t, pid, from, fs[..last]);
      var t1 := LastClaim(t, pid, from, fs);
      ClaimStep(t, t1, ClaimAll(t, pid, from, fs), pid, from, |fs|, fs[last], Frame(pid, from + last));
    }
  }

  lemma NothingClaimed(t: seq<Frame>, pid: nat, from: nat)
    ensures Claimed(t, t, pid, from, 0) && ClaimedWell(t, t, pid, from, 0)
  {
  }

  lemma LastClaim(t: seq<Frame>, pid: int32, from: nat, fs: seq<nat>) returns (t1: seq<Frame>)
    requires fs != [] && Claimable(t, pid, from, fs)
    ensures var last := |fs| - 1;
            t1 == ClaimAll(t, pid, from, fs[..last]) && fs[last] < |t1| == |t| && t1[fs[last]].pid == EMPTY &&
            ClaimAll(t, pid, from, fs) == t1[fs[last] := Frame(pid, from + last)]
  {
    t1 := ClaimAll(t, pid, from, fs[..|fs| - 1]);
  }

  lemma ClaimsCount(t: seq<Frame>, pid: int32, from: nat, fs: seq<nat>)
    requires 0 <= pid && Claimable(t, pid, from, fs)
    ensures CountPid(ClaimAll(t, pid, from, fs), EMPTY) == CountPid(t, EMPTY) - |fs|
  {
    ClaimAllFacts(t, pid, from, fs);
  }

  lemma CountsWithin(t: seq<Frame>, pid: int)
    requires pid != EMPTY
    ensures CountPid(t, pid) + CountPid(t, EMPTY) <= |t|
  {
  }

  /** Dropping every page of `pid` after a run of claims leaves the other owners where they were. */
  lemma DropClaims(t0: seq<Frame>, t: seq<Frame>, pid: nat, from: nat, n: nat)
    requires Claimed(t0, t, pid, from, n)
    ensures SameOwners(WithoutPid(t0, pid), WithoutPid(t, pid))
  {
  }

  lemma ClaimDuplicate(t0: seq<Frame>, t: seq<Frame>, t': seq<Frame>, f: nat, e: Frame)
    requires |t| == |t0| && f < |t| && t' == t[f := e] && e.Owned() && t[f].pid == EMPTY
    requires forall g :: 0 <= g < |t| && t0[g].pid != EMPTY ==> t[g] == t0[g]
    requires Holds(t0, e.Key())
    ensures !Unique(t')
  {
    var g :| 0 <= g < |t0| && t0[g].Owned() && t0[g].Key() == e.Key();
    assert t'[g] == e == t'[f] && g != f;
  }

  lemma ClaimKeepsDuplicate(t: seq<Frame>, f: nat, e: Frame)
    requires f < |t| && t[f].pid == EMPTY && !Unique(t)
    ensures !Unique(t[f := e])
  {
    var g, h :| 0 <= g < |t| && 0 <= h < |t| && t[g].Owned() && t[g] == t[h] && g != h;
    assert t[f := e][g] == t[f := e][h];
  }

  /** The keys that a run of claims adds. */
  ghost function NewKeys(pid: int, from: int, n: int): set<PageKey> {
    set k | from <= k < from + n :: PageKey(pid, k)
  }

  lemma ClaimedKeys(t0: seq<Frame>, t: seq<Frame>, pid: nat, from: nat, n: nat)
    requires Claimed(t0, t, pid, from, n)
    ensures Keys(t) == Keys(t0) + NewKeys(pid, from, n)
  {
    forall k
      ensures k in Keys(t) <==> k in Keys(t0) + NewKeys(pid, from, n)
    {
      KeysAreHeld(t, k);
      KeysAreHeld(t0, k);
      if Holds(t0, k) {
        var g :| 0 <= g < |t0| && t0[g].Owned() && t0[g].Key() == k;
        assert t[g].Key() == k;
      }
      if Holds(t, k) {
        var g :| 0 <= g < |t| && t[g].Owned() && t[g].Key() == k;
        if t0[g].pid != EMPTY { assert t0[g].Key() == k; }
      }
    }
  }

  /** Same owner in every frame; the page number left in an empty entry means nothing. */
  ghost predicate SameOwners(t0: seq<Frame>, t: seq<Frame>) {
    && |t| == |t0|
    && forall f :: 0 <= f < |t| ==> t[f].pid == t0[f].pid && (t[f].Owned() ==> t[f] == t0[f])
  }

  /** The roll-back of a failed request, after pages `from, ..., y - 1` have been vacated again. */
  ghost predicate RolledBack(t0: seq<Frame>, t: seq<Frame>, pid: nat, y: nat, end: nat) {
    && |t| == |t0|
    && (forall f :: 0 <= f < |t| && t0[f].pid != EMPTY ==> t[f] == t0[f])
    && (forall f :: 0 <= f < |t| && t0[f].pid == EMPTY ==>
          t[f].pid == EMPTY || (t[f].pid == pid && y <= t[f].page < end))
    && (forall k :: y <= k < end ==> Holds(t, PageKey(pid, k)))
    && Unique(t)
  }

  lemma RollBackStep(t0: seq<Frame>, t: seq<Frame>, pid: nat, y: nat, end: nat, f: nat)
    requires RolledBack(t0, t, pid, y, end) && y < end && FreshIds(t0, pid, y, end - y)
    requires f < |t| && Wanted(t[f], true, pid, y)
    ensures RolledBack(t0, t[f := t[f].(pid := EMPTY)], pid, y + 1, end)
  {
    var t' := t[f := t[f].(pid := EMPTY)];
    assert !Holds(t0, PageKey(pid, y));
    forall g | 0 <= g < |t| && g != f && t0[g].pid == EMPTY && t[g].pid == pid
      ensures t[g].page != y
    {
      assert t[g] != t[f];
    }
    forall k | y + 1 <= k < end
      ensures Holds(t', PageKey(pid, k))
    {
      var g :| 0 <= g < |t| && t[g].Owned() && t[g].Key() == PageKey(pid, k);
      assert t'[g].Key() == PageKey(pid, k);
    }
  }

  /** Releasing one page leaves the numbering without gaps exactly when it was the last page of its process. */
  lemma Release(t: seq<Frame>, f: nat)
    requires f < |t| && t[f].Owned() && Unique(t) && Dense(t)
    ensures var t' := t[f := t[f].(pid := EMPTY)];
            Unique(t') && Keys(t') == Keys(t) - {t[f].Key()} &&
            (Dense(t') <==> t[f].page == CountPid(t, t[f].pid) - 1)
  {
    var e := t[f];
    var t' := t[f := e.(pid := EMPTY)];
    forall k ensures Holds(t', k) <==> Holds(t, k) && k != e.Key() {
      if Holds(t, k) && k != e.Key() {
        var g :| 0 <= g < |t| && t[g].Owned() && t[g].Key() == k;
        assert t'[g].Key() == k;
      }
      if Holds(t', k) {
        var g :| 0 <= g < |t'| && t'[g].Owned() && t'[g].Key() == k;
        assert t[g].Key() == k && g != f;
        assert t[g] != t[f];
      }
    }
    forall k ensures k in Keys(t') <==> k in Keys(t) - {e.Key()} {
      KeysAreHeld(t, k);
      KeysAreHeld(t', k);
    }
    assert Holds(t, e.Key());
    var n := CountPid(t, e.pid);
    assert 0 <= e.page < n;
    forall q ensures CountPid(t', q) == if q == e.pid then n - 1 else CountPid(t, q) - (if q == -1 then -1 else 0) {
      CountUpdate(t, f, e.(pid := EMPTY), q);
    }
    if e.page == n - 1 {
      forall q, page | 0 <= q
        ensures Holds(t', PageKey(q, page)) <==> 0 <= page < CountPid(t', q)
      {
        assert Holds(t, PageKey(q, page)) <==> 0 <= page < CountPid(t, q);
      }
    } else {
      assert Holds(t, PageKey(e.pid, n - 1)) <==> 0 <= n - 1 < n;
      assert Holds(t', PageKey(e.pid, n - 1));
    }
  }

  // ---------------------------------------------------------------- the flat memory

  /** The one frame that holds `k`. */
  ghost function FrameOf(t: seq<Frame>, k: PageKey): (f: nat)
    requires Holds(t, k)
    ensures f < |t| && t[f].Owned() && t[f].Key() == k
  {
    var f :| 0 <= f < |t| && t[f].Owned() && t[f].Key() == k;
    f
  }

  /** The pages held by the first `n` frames. */
  ghost function PagesUpTo(m: seq<byte>, frames: nat, frameSize: nat, n: nat): map<PageKey, seq<byte>>
    requires |m| == At(frames, frameSize) && 8 * frames <= |m| && n <= frames
  {
    if n == 0 then map[]
    else
      var rest := PagesUpTo(m, frames, frameSize, n - 1);
      var e := DecodeFrame(m, n - 1);
      if e.Owned() then rest[e.Key() := FrameBytes(m, frames, frameSize, n - 1)] else rest
  }

  /** The memory as its clients see it: a map from (pid, page) to the bytes of the page. */
  ghost function FlatPages(m: seq<byte>, frames: nat, frameSize: nat): map<PageKey, seq<byte>>
    requires |m| == At(frames, frameSize) && 8 * frames <= |m|
  {
    PagesUpTo(m, frames, frameSize, frames)
  }

  /** A page is in the flat memory exactly when some frame holds it. */
  lemma {:induction false} FlatKeys(m: seq<byte>, frames: nat, frameSize: nat, n: nat)
    requires |m| == At(frames, frameSize) && 8 * frames <= |m| && n <= frames
    ensures PagesUpTo(m, frames, frameSize, n).Keys == Keys(TableOf(m, n))
  {
    if n == 0 {
    } else {
      FlatKeys(m, frames, frameSize, n - 1);
      KeysSnoc(TableOf(m, n - 1), DecodeFrame(m, n - 1));
    }
  }

  /** While no page is held twice, its bytes are those of the frame that holds it. */
  lemma {:induction false} FlatAt(m: seq<byte>, frames: nat, frameSize: nat, n: nat, f: nat)
    requires |m| == At(frames, frameSize) && 8 * frames <= |m| && f < n <= frames
    requires Unique(TableOf(m, n)) && TableOf(m, n)[f].Owned()
    ensures TableOf(m, n)[f].Key() in PagesUpTo(m, frames, frameSize, n)
    ensures PagesUpTo(m, frames, frameSize, n)[TableOf(m, n)[f].Key()] == FrameBytes(m, frames, frameSize, f)
  {
    var t, s := TableOf(m, n), TableOf(m, n - 1);
    assert forall g :: 0 <= g < n - 1 ==> s[g] == t[g];
    if n - 1 <= f {
    } else {
      FlatAt(m, frames, frameSize, n - 1, f);
      assert t[f] != t[n - 1];
    }
  }

  /** Reserved frames come first; every other frame is empty or owned by a process. */
  ghost predicate Partitioned(t: seq<Frame>, reserved: nat) {
    && reserved <= |t|
    && (forall f :: 0 <= f < reserved ==> t[f].pid == RESERVED)
    && (forall f :: reserved <= f < |t| ==> t[f].Owned() || t[f].pid == EMPTY)
  }

  /** Two memories that agree on the content of every unreserved frame. */
  ghost predicate SameContent(m: seq<byte>, m': seq<byte>, frames: nat, frameSize: nat)
    requires |m| == |m'| == At(frames, frameSize) && 0 < frameSize
  {
    forall f :: ReservedFrames(frames, frameSize) <= f < frames ==>
      FrameBytes(m', frames, frameSize, f) == FrameBytes(m, frames, frameSize, f)
  }

  lemma SameContentChain(m0: seq<byte>, m1: seq<byte>, m2: seq<byte>, frames: nat, frameSize: nat)
    requires |m0| == |m1| == |m2| == At(frames, frameSize) && 0 < frameSize
    requires SameContent(m0, m1, frames, frameSize) && SameContent(m1, m2, frames, frameSize)
    ensures SameContent(m0, m2, frames, frameSize)
  {
  }

  lemma {:induction false} ReservedCount(t: seq<Frame>, reserved: nat)
    requires reserved <= |t| && forall f :: 0 <= f < |t| ==> (t[f].pid == RESERVED <==> f < reserved)
    ensures CountPid(t, RESERVED) == reserved
  {
    if t == [] {
    } else {
      var s := t[..|t| - 1];
      assert forall f :: 0 <= f < |s| ==> s[f] == t[f];
      ReservedCount(s, if reserved == |t| then reserved - 1 else reserved);
    }
  }

  /** The empty frames are the unreserved ones that hold no page. */
  lemma EmptyFrames(m: seq<byte>, frames: nat, frameSize: nat)
    requires 0 < frameSize && |m| == At(frames, frameSize) && 8 * frames <= |m|
    requires Partitioned(TableOf(m, frames), ReservedFrames(frames, frameSize)) && Unique(TableOf(m, frames))
    ensures CountPid(TableOf(m, frames), EMPTY)
         == frames - ReservedFrames(frames, frameSize) - |FlatPages(m, frames, frameSize)|
  {
    var t := TableOf(m, frames);
    Census(t);
    ReservedCount(t, ReservedFrames(frames, frameSize));
    FlatKeys(m, frames, frameSize, frames);
    assert |FlatPages(m, frames, frameSize)| == |FlatPages(m, frames, frameSize).Keys|;
  }

  /** A key held before and after, by the same frame with the same content, reads the same. */
  lemma FlatUnchangedAt(m: seq<byte>, m': seq<byte>, frames: nat, frameSize: nat, f: nat, k: PageKey)
    requires |m| == |m'| == At(frames, frameSize) && 8 * frames <= |m| && f < frames
    requires Unique(TableOf(m, frames)) && Unique(TableOf(m', frames))
    requires TableOf(m, frames)[f].Owned() && TableOf(m, frames)[f].Key() == k
    requires TableOf(m', frames)[f] == TableOf(m, frames)[f]
    requires FrameBytes(m', frames, frameSize, f) == FrameBytes(m, frames, frameSize, f)
    ensures k in FlatPages(m, frames, frameSize) && k in FlatPages(m', frames, frameSize)
    ensures FlatPages(m', frames, frameSize)[k] == FlatPages(m, frames, frameSize)[k]
  {
    FlatAt(m, frames, frameSize, frames, f);
    FlatAt(m', frames, frameSize, frames, f);
  }

  /** If one owned frame changes its content and no other does, one flat page changes. */
  lemma FlatUpdate(m: seq<byte>, m': seq<byte>, frames: nat, frameSize: nat, f: nat, k: PageKey)
    requires |m| == |m'| == At(frames, frameSize) && 8 * frames <= |m| && f < frames
    requires TableOf(m', frames) == TableOf(m, frames) && Unique(TableOf(m, frames))
    requires TableOf(m, frames)[f].Owned() && TableOf(m, frames)[f].Key() == k
    requires forall g :: 0 <= g < frames && g != f ==>
               FrameBytes(m', frames, frameSize, g) == FrameBytes(m, frames, frameSize, g)
    ensures k in FlatPages(m, frames, frameSize)
    ensures FlatPages(m, frames, frameSize)[k] == FrameBytes(m, frames, frameSize, f)
    ensures FlatPages(m', frames, frameSize)
         == FlatPages(m, frames, frameSize)[k := FrameBytes(m', frames, frameSize, f)]
  {
    var t := TableOf(m, frames);
    var p, p' := FlatPages(m, frames, frameSize), FlatPages(m', frames, frameSize);
    FlatKeys(m, frames, frameSize, frames);
    FlatKeys(m', frames, frameSize, frames);
    FlatAt(m, frames, frameSize, frames, f);
    FlatAt(m', frames, frameSize, frames, f);
    forall j | j in p && j != k
      ensures j in p' && p'[j] == p[j]
    {
      KeysAreHeld(t, j);
      FlatUnchangedAt(m, m', frames, frameSize, FrameOf(t, j), j);
    }
    KeysAreHeld(t, k);
    assert t[f].Key() in p;
    assert p' == p[k := p'[k]];
  }

  /** The flat effect of an in-page store: one page changes, and only where the data goes. */
  lemma FlatStore(m: seq<byte>, m': seq<byte>, frames: nat, frameSize: nat, f: nat, k: PageKey, offset: nat,
                  data: seq<byte>)
    requires 8 <= frameSize && |m| == At(frames, frameSize) && 8 * frames <= |m|
    requires Unique(TableOf(m, frames)) && Partitioned(TableOf(m, frames), ReservedFrames(frames, frameSize))
    requires f < frames && TableOf(m, frames)[f].Owned() && TableOf(m, frames)[f].Key() == k
    requires offset + |data| <= frameSize && At(f, frameSize) + offset + |data| <= |m|
    requires m' == Splice(m, At(f, frameSize) + offset, data)
    ensures TableOf(m', frames) == TableOf(m, frames)
    ensures k in FlatPages(m, frames, frameSize) && |FlatPages(m, frames, frameSize)[k]| == frameSize
    ensures FlatPages(m', frames, frameSize)
         == FlatPages(m, frames, frameSize)[k := Splice(FlatPages(m, frames, frameSize)[k], offset, data)]
  {
    UserStoreKeepsTable(m, frames, frameSize, f, offset, data);
    UserStoreFrame(m, frames, frameSize, f, offset, data);
    forall g | 0 <= g < frames && g != f
      ensures FrameBytes(m', frames, frameSize, g) == FrameBytes(m, frames, frameSize, g)
    {
      UserStoreOtherFrame(m, frames, frameSize, f, offset, data, g);
    }
    FlatUpdate(m, m', frames, frameSize, f, k);
  }

  /** Emptying frames removes their pages and changes no other page. */
  lemma FlatRemove(m: seq<byte>, m': seq<byte>, frames: nat, frameSize: nat, gone: set<PageKey>)
    requires 8 <= frameSize && |m| == |m'| == At(frames, frameSize) && 8 * frames <= |m|
    requires Partitioned(TableOf(m, frames), ReservedFrames(frames, frameSize))
    requires Unique(TableOf(m, frames)) && Unique(TableOf(m', frames)) && SameContent(m, m', frames, frameSize)
    requires Keys(TableOf(m', frames)) == Keys(TableOf(m, frames)) - gone
    requires forall f :: 0 <= f < frames && TableOf(m, frames)[f].Owned() && TableOf(m, frames)[f].Key() !in gone ==>
               TableOf(m', frames)[f] == TableOf(m, frames)[f]
    ensures FlatPages(m', frames, frameSize) == FlatPages(m, frames, frameSize) - gone
  {
    var t, t' := TableOf(m, frames), TableOf(m', frames);
    var p, p' := FlatPages(m, frames, frameSize), FlatPages(m', frames, frameSize);
    FlatKeys(m, frames, frameSize, frames);
    FlatKeys(m', frames, frameSize, frames);
    forall k | k in p'
      ensures k in p && p'[k] == p[k]
    {
      KeysAreHeld(t, k);
      var f := FrameOf(t, k);
      assert t'[f] == t[f];
      assert ReservedFrames(frames, frameSize) <= f;
      FlatUnchangedAt(m, m', frames, frameSize, f, k);
    }
    assert p'.Keys == p.Keys - gone;
  }

  /** `p'` adds the pages `added`, with any content, to `p`. */
  ghost predicate Extends(p: map<PageKey, seq<byte>>, p': map<PageKey, seq<byte>>, added: set<PageKey>) {
    p'.Keys == p.Keys + added && forall k :: k in p ==> p'[k] == p[k]
  }

  lemma FlatClaimed(m: seq<byte>, m': seq<byte>, frames: nat, frameSize: nat, pid: nat, from: nat, n: nat)
    requires 8 <= frameSize && |m| == |m'| == At(frames, frameSize) && 8 * frames <= |m|
    requires Partitioned(TableOf(m, frames), ReservedFrames(frames, frameSize))
    requires Unique(TableOf(m, frames)) && Unique(TableOf(m', frames)) && SameContent(m, m', frames, frameSize)
    requires Claimed(TableOf(m, frames), TableOf(m', frames), pid, from, n)
    ensures Extends(FlatPages(m, frames, frameSize), FlatPages(m', frames, frameSize), NewKeys(pid, from, n))
  {
    var t := TableOf(m, frames);
    ClaimedKeys(t, TableOf(m', frames), pid, from, n);
    FlatKeys(m, frames, frameSize, frames);
    FlatKeys(m', frames, frameSize, frames);
    forall k | Holds(t, k)
      ensures k in FlatPages(m', frames, frameSize)
      ensures FlatPages(m', frames, frameSize)[k] == FlatPages(m, frames, frameSize)[k]
    {
      FlatUnchangedAt(m, m', frames, frameSize, FrameOf(t, k), k);
    }
  }

  lemma SameOwnersTable(t: seq<Frame>, t': seq<Frame>)
    requires SameOwners(t, t') && Unique(t)
    ensures Unique(t') && Keys(t') == Keys(t)
    ensures Dense(t) ==> Dense(t')
  {
    forall k
      ensures Holds(t', k) <==> Holds(t, k)
    {
      if Holds(t, k) { assert t'[FrameOf(t, k)].Key() == k; }
      if Holds(t', k) { assert t[FrameOf(t', k)].Key() == k; }
    }
    forall k
      ensures k in Keys(t') <==> k in Keys(t)
    {
      KeysAreHeld(t, k);
      KeysAreHeld(t', k);
    }
    if Dense(t) {
      forall pid, page | 0 <= pid
        ensures Holds(t', PageKey(pid, page)) <==> 0 <= page < CountPid(t', pid)
      {
        SameOwnersCount(t, t', pid);
        assert Holds(t, PageKey(pid, page)) <==> 0 <= page < CountPid(t, pid);
      }
    }
  }

  lemma FlatSameOwners(m: seq<byte>, m': seq<byte>, frames: nat, frameSize: nat)
    requires 8 <= frameSize && |m| == |m'| == At(frames, frameSize) && 8 * frames <= |m|
    requires Partitioned(TableOf(m, frames), ReservedFrames(frames, frameSize))
    requires Unique(TableOf(m, frames)) && SameContent(m, m', frames, frameSize)
    requires SameOwners(TableOf(m, frames), TableOf(m', frames))
    ensures FlatPages(m', frames, frameSize) == FlatPages(m, frames, frameSize)
  {
    SameOwnersTable(TableOf(m, frames), TableOf(m', frames));
    FlatRemove(m, m', frames, frameSize, {});
  }

  lemma {:induction false} SameOwnersCount(t: seq<Frame>, t': seq<Frame>, pid: int)
    requires SameOwners(t, t')
    ensures CountPid(t', pid) == CountPid(t, pid)
  {
    if t == [] {
    } else {
      SameOwnersCount(t[..|t| - 1], t'[..|t| - 1], pid);
    }
  }

  /** A granted request, seen from outside: new page numbers for one process, and nothing else changes. */
  lemma AfterClaims(m: seq<byte>, m': seq<byte>, frames: nat, frameSize: nat, pid: int32, from: nat, fs: seq<nat>)
    requires 8 <= frameSize && |m| == |m'| == At(frames, frameSize) && 8 * frames <= |m|
    requires Partitioned(TableOf(m, frames), ReservedFrames(frames, frameSize)) && SameContent(m, m', frames, frameSize)
    requires Unique(TableOf(m, frames)) && Dense(TableOf(m, frames))
    requires 0 <= pid && from == CountPid(TableOf(m, frames), pid) && Claimable(TableOf(m, frames), pid, from, fs)
    requires TableOf(m', frames) == ClaimAll(TableOf(m, frames), pid, from, fs)
    ensures Unique(TableOf(m', frames)) && Dense(TableOf(m', frames))
    ensures Extends(FlatPages(m, frames, frameSize), FlatPages(m', frames, frameSize), NewKeys(pid, from, |fs|))
  {
    ClaimAllFacts(TableOf(m, frames), pid, from, fs);
    FlatClaimed(m, m', frames, frameSize, pid, from, |fs|);
  }

  /**
   Initial pages are numbered from 0, whatever the process owns: the table stays a function only if it owned
   nothing.
   */
  lemma AfterInitialClaims(m: seq<byte>, m': seq<byte>, frames: nat, frameSize: nat, pid: int32, fs: seq<nat>)
    requires 8 <= frameSize && |m| == |m'| == At(frames, frameSize) && 8 * frames <= |m|
    requires Partitioned(TableOf(m, frames), ReservedFrames(frames, frameSize)) && SameContent(m, m', frames, frameSize)
    requires Unique(TableOf(m, frames)) && Dense(TableOf(m, frames))
    requires 0 <= pid && Claimable(TableOf(m, frames), pid, 0, fs)
    requires TableOf(m', frames) == ClaimAll(TableOf(m, frames), pid, 0, fs)
    ensures CountPid(TableOf(m, frames), pid) == 0 || fs == [] ==>
              Unique(TableOf(m', frames)) && Dense(TableOf(m', frames)) &&
              Extends(FlatPages(m, frames, frameSize), FlatPages(m', frames, frameSize), NewKeys(pid, 0, |fs|))
    ensures CountPid(TableOf(m, frames), pid) != 0 && fs != [] ==> !Unique(TableOf(m', frames))
  {
    if CountPid(TableOf(m, frames), pid) == 0 {
      AfterClaims(m, m', frames, frameSize, pid, 0, fs);
    } else if fs == [] {
      FlatSameOwners(m, m', frames, frameSize);
    } else {
      ClaimAllFacts(TableOf(m, frames), pid, 0, fs);
      assert Holds(TableOf(m, frames), PageKey(pid, 0));
    }
  }

  /** A refused request, seen from outside: nothing happened. */
  lemma AfterRefusal(m: seq<byte>, m': seq<byte>, frames: nat, frameSize: nat)
    requires 8 <= frameSize && |m| == |m'| == At(frames, frameSize) && 8 * frames <= |m|
    requires Partitioned(TableOf(m, frames), ReservedFrames(frames, frameSize)) && SameContent(m, m', frames, frameSize)
    requires Unique(TableOf(m, frames)) && Dense(TableOf(m, frames))
    requires SameOwners(TableOf(m, frames), TableOf(m', frames))
    ensures Unique(TableOf(m', frames)) && Dense(TableOf(m', frames))
    ensures FlatPages(m', frames, frameSize) == FlatPages(m, frames, frameSize)
  {
    SameOwnersTable(TableOf(m, frames), TableOf(m', frames));
    FlatSameOwners(m, m', frames, frameSize);
  }

  /** A released page, seen from outside. */
  lemma AfterRelease(m: seq<byte>, m': seq<byte>, frames: nat, frameSize: nat, f: nat, k: PageKey)
    requires 8 <= frameSize && |m| == |m'| == At(frames, frameSize) && 8 * frames <= |m|
    requires Partitioned(TableOf(m, frames), ReservedFrames(frames, frameSize)) && SameContent(m, m', frames, frameSize)
    requires Unique(TableOf(m, frames)) && Dense(TableOf(m, frames))
    requires f < frames && TableOf(m, frames)[f].Owned() && TableOf(m, frames)[f].Key() == k
    requires TableOf(m', frames) == TableOf(m, frames)[f := TableOf(m, frames)[f].(pid := EMPTY)]
    ensures Unique(TableOf(m', frames))
    ensures Dense(TableOf(m', frames)) <==> k.page == CountPid(TableOf(m, frames), k.pid) - 1
    ensures FlatPages(m', frames, frameSize) == FlatPages(m, frames, frameSize) - {k}
  {
    Release(TableOf(m, frames), f);
    FlatRemove(m, m', frames, frameSize, {k});
  }

  ghost function PidKeys(t: seq<Frame>, pid: int): set<PageKey> {
    set k | k in Keys(t) && k.pid == pid
  }

  lemma RemovedKeys(t: seq<Frame>, t': seq<Frame>, pid: nat)
    requires Unique(t) && Dense(t) && SameOwners(WithoutPid(t, pid), t')
    ensures Unique(t') && Dense(t') && Keys(t') == Keys(t) - PidKeys(t, pid)
  {
    Remove(t, pid);
    SameOwnersTable(WithoutPid(t, pid), t');
  }

  /** A process whose frames have been emptied, seen from outside. */
  lemma AfterRemoval(m: seq<byte>, m': seq<byte>, frames: nat, frameSize: nat, pid: nat)
    requires 8 <= frameSize && |m| == |m'| == At(frames, frameSize) && 8 * frames <= |m|
    requires Partitioned(TableOf(m, frames), ReservedFrames(frames, frameSize)) && SameContent(m, m', frames, frameSize)
    requires Unique(TableOf(m, frames)) && Dense(TableOf(m, frames))
    requires SameOwners(WithoutPid(TableOf(m, frames), pid), TableOf(m', frames))
    ensures Unique(TableOf(m', frames)) && Dense(TableOf(m', frames))
    ensures FlatPages(m', frames, frameSize)
         == FlatPages(m, frames, frameSize) - set k | k in FlatPages(m, frames, frameSize) && k.pid == pid
  {
    var t, t' := TableOf(m, frames), TableOf(m', frames);
    RemovedKeys(t, t', pid);
    OthersKept(t, t', pid);
    FlatRemove(m, m', frames, frameSize, PidKeys(t, pid));
    FlatKeys(m, frames, frameSize, frames);
    assert PidKeys(t, pid) == set k | k in FlatPages(m, frames, frameSize) && k.pid == pid;
  }

  lemma OthersKept(t: seq<Frame>, t': seq<Frame>, pid: nat)
    requires SameOwners(WithoutPid(t, pid), t')
    ensures |t'| == |t| && forall f :: 0 <= f < |t| && t[f].Owned() && t[f].Key() !in PidKeys(t, pid) ==> t'[f] == t[f]
  {
    forall f | 0 <= f < |t| && t[f].Owned() && t[f].Key() !in PidKeys(t, pid)
      ensures t'[f] == t[f]
    {
      assert t[f].Key() in Keys(t);
      assert WithoutPid(t, pid)[f] == t[f];
    }
  }
}
