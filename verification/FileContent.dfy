/** What a file holds: the bytes of its blocks, and how reads and writes cut a request into block pieces. */
module FileContent {
  import opened Bytes
  import opened Rounding

  // ---------------------------------------------------------------- C strings

  predicate NoNul(d: seq<byte>) {
    forall k :: 0 <= k < |d| ==> d[k] != 0
  }

  /** What `string_append` takes of a buffer: the bytes before the first NUL. */
  function UpToNul(d: seq<byte>): (r: seq<byte>)
    ensures |r| <= |d|
  {
    if d == [] || d[0] == 0 then [] else [d[0]] + UpToNul(d[1..])
  }

  function Zeros(n: nat): (r: seq<byte>)
    ensures |r| == n
  {
    if n == 0 then [] else [0] + Zeros(n - 1)
  }

  /** What `string_substring` copies: nothing after the first NUL, zeros instead. */
  function Cut(d: seq<byte>): (r: seq<byte>)
    ensures |r| == |d|
  {
    if d == [] then []
    else if d[0] == 0 then Zeros(|d|)
    else [d[0]] + Cut(d[1..])
  }

  /** A buffer without NUL bytes is copied whole; one with a NUL is not. */
  lemma {:induction false} WholeString(d: seq<byte>)
    ensures NoNul(d) ==> UpToNul(d) == d && Cut(d) == d
    ensures !NoNul(d) ==> |UpToNul(d)| < |d|
  {
    if d == [] {
    } else {
      assert d == [d[0]] + d[1..];
      if d[0] != 0 {
        WholeString(d[1..]);
      }
    }
  }

  lemma {:induction false} UpToNulOfCut(d: seq<byte>)
    ensures UpToNul(Cut(d)) == UpToNul(d)
  {
    if d == [] || d[0] == 0 {
    } else {
      assert Cut(d)[1..] == Cut(d[1..]);
      UpToNulOfCut(d[1..]);
    }
  }

  // ---------------------------------------------------------------- requests cut at block ends

  /** How many of `left` bytes fit in a block with `room` bytes to its end. */
  function Piece(left: nat, room: nat): (n: nat)
    ensures n <= left && n <= room
  {
    if left >= room then room else left
  }

  /** The bytes a write leaves in the file for `data`, starting `room` bytes before the end of a block. */
  function Stored(data: seq<byte>, room: nat, size: nat): (r: seq<byte>)
    requires 0 < size
    ensures |r| == |data|
    decreases |data|, room == 0
  {
    if data == [] then []
    else
      var n := Piece(|data|, room);
      Cut(data[..n]) + Stored(data[n..], size, size)
  }

  /** The bytes a read returns when the file holds `raw`. */
  function Fetched(raw: seq<byte>, room: nat, size: nat): (r: seq<byte>)
    requires 0 < size
    ensures |r| <= |raw|
    decreases |raw|, room == 0
  {
    if raw == [] then []
    else
      var n := Piece(|raw|, room);
      UpToNul(raw[..n]) + Fetched(raw[n..], size, size)
  }

  /** A read is whole if and only if there are no NUL bytes; with one, it comes out short. */
  lemma {:induction false} FetchedWhole(raw: seq<byte>, room: nat, size: nat)
    requires 0 < size
    ensures Fetched(raw, room, size) == raw <==> NoNul(raw)
    ensures !NoNul(raw) ==> |Fetched(raw, room, size)| < |raw|
    decreases |raw|, room == 0
  {
    if raw == [] {
    } else {
      var n := Piece(|raw|, room);
      var head, tail := raw[..n], raw[n..];
      FetchedWhole(tail, size, size);
      WholeString(head);
      assert raw == head + tail;
      NoNulParts(raw, n);
    }
  }

  lemma NoNulParts(d: seq<byte>, n: nat)
    requires n <= |d|
    ensures NoNul(d) <==> NoNul(d[..n]) && NoNul(d[n..])
  {
    assert d == d[..n] + d[n..];
  }

  /** A write without NUL bytes stores just its data. */
  lemma {:induction false} StoredWhole(data: seq<byte>, room: nat, size: nat)
    requires 0 < size && NoNul(data)
    ensures Stored(data, room, size) == data
    decreases |data|, room == 0
  {
    if data == [] {
    } else {
      var n := Piece(|data|, room);
      NoNulParts(data, n);
      WholeString(data[..n]);
      StoredWhole(data[n..], size, size);
      assert data == data[..n] + data[n..];
    }
  }

  /** A read finds what a write of the same extent left. */
  lemma {:induction false} FetchedStored(data: seq<byte>, room: nat, size: nat)
    requires 0 < size
    ensures Fetched(Stored(data, room, size), room, size) == Fetched(data, room, size)
    decreases |data|, room == 0
  {
    if data == [] {
    } else {
      var n := Piece(|data|, room);
      var s := Stored(data, room, size);
      assert s[..n] == Cut(data[..n]) && s[n..] == Stored(data[n..], size, size);
      UpToNulOfCut(data[..n]);
      FetchedStored(data[n..], size, size);
    }
  }

  /** Reading back what was written gives the data if and only if it holds no NUL byte. */
  lemma RoundTrip(data: seq<byte>, room: nat, size: nat)
    requires 0 < size
    ensures Fetched(Stored(data, room, size), room, size) == data <==> NoNul(data)
  {
    FetchedStored(data, room, size);
    FetchedWhole(data, room, size);
  }

  // ---------------------------------------------------------------- where a request begins

  /** The block a request at `offset` starts in. At a block boundary it is the block before. */
  function FirstBlock(offset: nat, size: nat): nat
    requires 0 < size
  {
    var n := CeilDiv(offset, size);
    if n == 0 then 0 else n - 1
  }

  /** How many bytes from there to the end of that block: none at a block boundary. */
  function FirstRoom(offset: nat, size: nat): (room: nat)
    requires 0 < size
    ensures room <= size
  {
    CeilDivCovers(offset, size);
    At(FirstBlock(offset, size), size) + size - offset
  }

  // ---------------------------------------------------------------- the bytes of a file

  ghost predicate BlocksSized(disk: seq<seq<byte>>, size: nat) {
    forall b :: 0 <= b < |disk| ==> |disk[b]| == size
  }

  ghost predicate OnDisk(list: seq<nat>, blocks: nat) {
    forall i :: 0 <= i < |list| ==> list[i] < blocks
  }

  ghost predicate Has(list: seq<nat>, b: nat) {
    list != [] && (list[|list| - 1] == b || Has(list[..|list| - 1], b))
  }

  /** No block is listed twice. */
  ghost predicate Distinct(list: seq<nat>) {
    list == [] || (!Has(list[..|list| - 1], list[|list| - 1]) && Distinct(list[..|list| - 1]))
  }

  lemma {:induction false} HasAt(list: seq<nat>, i: nat)
    requires i < |list|
    ensures Has(list, list[i])
  {
    if |list| - 1 <= i {
    } else {
      HasAt(list[..|list| - 1], i);
    }
  }

  lemma {:induction false} HasIn(list: seq<nat>, b: nat)
    ensures Has(list, b) <==> b in list
  {
    if list == [] {
    } else {
      HasIn(list[..|list| - 1], b);
      assert list == list[..|list| - 1] + [list[|list| - 1]];
    }
  }

  lemma {:induction false} DistinctAt(list: seq<nat>)
    requires forall i, j :: 0 <= i < j < |list| ==> list[i] != list[j]
    ensures Distinct(list)
  {
    if list == [] {
    } else {
      var front := list[..|list| - 1];
      DistinctAt(front);
      HasIn(front, list[|list| - 1]);
    }
  }

  lemma HasSnoc(list: seq<nat>, x: nat, b: nat)
    ensures Has(list + [x], b) <==> Has(list, b) || x == b
    ensures Distinct(list + [x]) <==> Distinct(list) && !Has(list, x)
  {
    assert (list + [x])[..|list|] == list;
  }

  lemma HasOne(b: nat)
    ensures Distinct([b]) && forall k: nat :: Has([b], k) <==> k == b
  {
    assert forall k: nat :: !Has([], k);
    assert [b][..0] == [];
  }

  function Content(list: seq<nat>, disk: seq<seq<byte>>): seq<byte> {
    if list == [] then []
    else Content(list[..|list| - 1], disk) + if list[|list| - 1] < |disk| then disk[list[|list| - 1]] else []
  }

  lemma {:induction false} ContentSize(list: seq<nat>, disk: seq<seq<byte>>, size: nat)
    requires BlocksSized(disk, size) && OnDisk(list, |disk|)
    ensures |Content(list, disk)| == At(|list|, size)
  {
    if list == [] {
    } else {
      ContentSize(list[..|list| - 1], disk, size);
    }
  }

  lemma {:induction false} ContentBlock(list: seq<nat>, disk: seq<seq<byte>>, size: nat, i: nat)
    requires BlocksSized(disk, size) && OnDisk(list, |disk|) && i < |list|
    ensures At(i, size) + size <= |Content(list, disk)|
    ensures forall k :: 0 <= k < size ==> disk[list[i]][k] == Content(list, disk)[At(i, size) + k]
  {
    var front := list[..|list| - 1];
    ContentSize(front, disk, size);
    if |front| <= i {
    } else {
      ContentBlock(front, disk, size, i);
      assert list[i] == front[i];
    }
  }

  /** A file whose blocks were not touched holds what it held. */
  lemma {:induction false} ContentSame(list: seq<nat>, disk: seq<seq<byte>>, disk': seq<seq<byte>>)
    requires |disk'| == |disk|
    requires forall i :: 0 <= i < |list| && list[i] < |disk| ==> disk'[list[i]] == disk[list[i]]
    ensures Content(list, disk') == Content(list, disk)
  {
    if list == [] {
    } else {
      var front := list[..|list| - 1];
      assert forall i :: 0 <= i < |front| ==> front[i] == list[i];
      ContentSame(front, disk, disk');
    }
  }

  /** A store into block number `i` of the file is a store at the matching place of its content. */
  lemma {:induction false} StoreInBlock(list: seq<nat>, disk: seq<seq<byte>>, size: nat, i: nat, at: nat, d: seq<byte>)
    requires BlocksSized(disk, size) && OnDisk(list, |disk|) && Distinct(list) && i < |list| && at + |d| <= size
    ensures At(i, size) + at + |d| <= |Content(list, disk)|
    ensures Content(list, disk[list[i] := Splice(disk[list[i]], at, d)])
            == Splice(Content(list, disk), At(i, size) + at, d)
  {
    var last := |list| - 1;
    var front, x, disk' := list[..last], list[last], disk[list[i] := Splice(disk[list[i]], at, d)];
    ContentLast(list, disk);
    ContentLast(list, disk');
    if i < last {
      StoreInBlock(front, disk, size, i, at, d);
      HasAt(front, i);
      SpliceBefore(Content(front, disk), At(i, size) + at, d, disk[x]);
    } else {
      StoreInLast(front, x, disk, size, at, d);
    }
  }

  /** The blocks of the disk after that store. */
  lemma StoredDisk(list: seq<nat>, disk: seq<seq<byte>>, size: nat, i: nat, at: nat, d: seq<byte>)
    requires BlocksSized(disk, size) && OnDisk(list, |disk|) && Distinct(list) && i < |list| && at + |d| <= size
    ensures BlocksSized(disk[list[i] := Splice(disk[list[i]], at, d)], size)
    ensures KeptOutside(list, disk, disk[list[i] := Splice(disk[list[i]], at, d)])
    ensures At(i, size) + at + |d| <= |Content(list, disk)|
    ensures Content(list, disk[list[i] := Splice(disk[list[i]], at, d)])
            == Splice(Content(list, disk), At(i, size) + at, d)
  {
    HasAt(list, i);
    StoreInBlock(list, disk, size, i, at, d);
  }

  /** Blocks that are not listed have not changed. */
  ghost predicate KeptOutside(list: seq<nat>, disk: seq<seq<byte>>, disk': seq<seq<byte>>) {
    |disk'| == |disk| && forall b {:trigger disk'[b]} :: 0 <= b < |disk'| && !Has(list, b) ==> disk'[b] == disk[b]
  }

  lemma KeptTwice(list: seq<nat>, disk: seq<seq<byte>>, disk': seq<seq<byte>>, disk'': seq<seq<byte>>)
    requires KeptOutside(list, disk, disk') && KeptOutside(list, disk', disk'')
    ensures KeptOutside(list, disk, disk'')
  {
    forall b | 0 <= b < |disk''| && !Has(list, b)
      ensures disk''[b] == disk[b]
    {
      assert disk''[b] == disk'[b] && disk'[b] == disk[b];
    }
  }

  lemma ContentLast(list: seq<nat>, disk: seq<seq<byte>>)
    requires list != [] && list[|list| - 1] < |disk|
    ensures Content(list, disk) == Content(list[..|list| - 1], disk) + disk[list[|list| - 1]]
  {
  }

  lemma StoreInLast(front: seq<nat>, x: nat, disk: seq<seq<byte>>, size: nat, at: nat, d: seq<byte>)
    requires BlocksSized(disk, size) && OnDisk(front, |disk|) && !Has(front, x) && x < |disk| && at + |d| <= size
    ensures |Content(front, disk)| == At(|front|, size)
    ensures Content(front, disk[x := Splice(disk[x], at, d)]) + Splice(disk[x], at, d)
            == Splice(Content(front, disk) + disk[x], At(|front|, size) + at, d)
  {
    NotListedSame(front, x, disk, Splice(disk[x], at, d));
    ContentSize(front, disk, size);
    SpliceBehind(Content(front, disk), disk[x], at, d);
  }

  lemma NotListedSame(front: seq<nat>, x: nat, disk: seq<seq<byte>>, block: seq<byte>)
    requires !Has(front, x) && x < |disk|
    ensures Content(front, disk[x := block]) == Content(front, disk)
  {
    forall j | 0 <= j < |front|
      ensures front[j] != x
    {
      HasAt(front, j);
    }
    ContentSame(front, disk, disk[x := block]);
  }

  lemma SpliceBefore(c: seq<byte>, at: nat, d: seq<byte>, b: seq<byte>)
    requires at + |d| <= |c|
    ensures Splice(c, at, d) + b == Splice(c + b, at, d)
  {
  }

  lemma SpliceBehind(c: seq<byte>, b: seq<byte>, at: nat, d: seq<byte>)
    requires at + |d| <= |b|
    ensures c + Splice(b, at, d) == Splice(c + b, |c| + at, d)
  {
  }

  lemma ContentSnoc(list: seq<nat>, b: nat, disk: seq<seq<byte>>)
    ensures Content(list + [b], disk) == Content(list, disk) + if b < |disk| then disk[b] else []
  {
    assert (list + [b])[..|list|] == list;
  }

  lemma ContentSnocGrows(list: seq<nat>, front: seq<nat>, b: nat, disk: seq<seq<byte>>)
    requires Content(list + front, disk) == Content(list, disk) + Content(front, disk)
    ensures Content(list + (front + [b]), disk) == Content(list, disk) + Content(front + [b], disk)
  {
    ContentSnoc(list + front, b, disk);
    ContentSnoc(front, b, disk);
    assert list + (front + [b]) == list + front + [b];
    Assoc(Content(list, disk), Content(front, disk), if b < |disk| then disk[b] else []);
  }

  /** Blocks appended to a file extend its content. */
  lemma {:induction false} ContentGrows(list: seq<nat>, more: seq<nat>, disk: seq<seq<byte>>)
    ensures Content(list + more, disk) == Content(list, disk) + Content(more, disk)
  {
    if more == [] {
      assert list + more == list;
    } else {
      var front, b := more[..|more| - 1], more[|more| - 1];
      ContentGrows(list, front, disk);
      ContentSnocGrows(list, front, b, disk);
      assert more == front + [b];
    }
  }

  /** A position before the end of the content lies in one of the blocks. */
  lemma Reaches(list: seq<nat>, disk: seq<seq<byte>>, size: nat, i: nat, pos: nat)
    requires BlocksSized(disk, size) && OnDisk(list, |disk|)
    requires At(i, size) <= pos < |Content(list, disk)|
    ensures i < |list|
  {
    ContentSize(list, disk, size);
    if |list| < i { FrameInside(|list|, i, size); }
  }

  // ---------------------------------------------------------------- a read, piece by piece

  /** The text that `n` bytes from `pos` on add to what has been read. */
  function Text(c: seq<byte>, pos: nat, n: nat): seq<byte>
    requires pos + n <= |c|
    decreases n
  {
    if n == 0 || c[pos] == 0 then [] else [c[pos]] + Text(c, pos + 1, n - 1)
  }

  lemma {:induction false} TextIsUpToNul(c: seq<byte>, pos: nat, n: nat)
    requires pos + n <= |c|
    ensures Text(c, pos, n) == UpToNul(c[pos..pos + n])
    decreases n
  {
    if n == 0 || c[pos] == 0 {
    } else {
      TextIsUpToNul(c, pos + 1, n - 1);
      assert c[pos..pos + n][1..] == c[pos + 1..pos + n];
    }
  }

  lemma {:induction false} SameText(b: seq<byte>, c: seq<byte>, start: nat, at: nat, n: nat)
    requires start + |b| <= |c| && at + n <= |b| && forall k :: 0 <= k < |b| ==> b[k] == c[start + k]
    ensures Text(b, at, n) == Text(c, start + at, n)
    decreases n
  {
    if n == 0 || b[at] == 0 {
    } else {
      SameText(b, c, start, at + 1, n - 1);
    }
  }

  /** Text in a block is text in the content. */
  lemma TextInBlock(list: seq<nat>, disk: seq<seq<byte>>, size: nat, i: nat, at: nat, n: nat)
    requires BlocksSized(disk, size) && OnDisk(list, |disk|) && i < |list| && at + n <= size
    ensures At(i, size) + at + n <= |Content(list, disk)|
    ensures Text(disk[list[i]], at, n) == Text(Content(list, disk), At(i, size) + at, n)
  {
    ContentBlock(list, disk, size, i);
    SameText(disk[list[i]], Content(list, disk), At(i, size), at, n);
  }

  /** `out` and what is still to be read: `left` bytes from `pos`, which is `room` bytes before the end of a block. */
  function ReadFrom(out: seq<byte>, c: seq<byte>, pos: nat, left: nat, room: nat, size: nat): seq<byte>
    requires 0 < size && pos + left <= |c|
    decreases left, room == 0
  {
    if left == 0 then out
    else
      var n := Piece(left, room);
      ReadFrom(out + Text(c, pos, n), c, pos + n, left - n, size, size)
  }

  lemma {:induction false} ReadIsFetched(out: seq<byte>, c: seq<byte>, pos: nat, left: nat, room: nat, size: nat)
    requires 0 < size && pos + left <= |c|
    ensures ReadFrom(out, c, pos, left, room, size) == out + Fetched(c[pos..pos + left], room, size)
    decreases left, room == 0
  {
    if left == 0 {
      assert c[pos..pos + left] == [];
    } else {
      var n := Piece(left, room);
      ReadIsFetched(out + Text(c, pos, n), c, pos + n, left - n, size, size);
      ReadOnePiece(out, c, pos, left, room, size, n);
    }
  }

  /** The first piece, when the others are read as they should be. */
  lemma ReadOnePiece(out: seq<byte>, c: seq<byte>, pos: nat, left: nat, room: nat, size: nat, n: nat)
    requires 0 < size && pos + left <= |c| && 0 < left && n == Piece(left, room)
    requires ReadFrom(out + Text(c, pos, n), c, pos + n, left - n, size, size)
             == out + Text(c, pos, n) + Fetched(c[pos + n..pos + n + (left - n)], size, size)
    ensures ReadFrom(out, c, pos, left, room, size) == out + Fetched(c[pos..pos + left], room, size)
  {
    FetchedNext(c, pos, left, room, size);
    ReadNext(out, c, pos, left, room, size, Text(c, pos, n), Fetched(c[pos + n..pos + n + (left - n)], size, size));
  }

  lemma ReadNext(out: seq<byte>, c: seq<byte>, pos: nat, left: nat, room: nat, size: nat, head: seq<byte>,
                 tail: seq<byte>)
    requires 0 < size && pos + left <= |c| && 0 < left
    requires var n := Piece(left, room);
             head == Text(c, pos, n) && ReadFrom(out + head, c, pos + n, left - n, size, size) == out + head + tail
    ensures ReadFrom(out, c, pos, left, room, size) == out + (head + tail)
  {
    Assoc(out, head, tail);
  }

  lemma FetchedNext(c: seq<byte>, pos: nat, left: nat, room: nat, size: nat)
    requires 0 < size && pos + left <= |c| && 0 < left
    ensures var n := Piece(left, room);
            Fetched(c[pos..pos + left], room, size)
            == Text(c, pos, n) + Fetched(c[pos + n..pos + left], size, size)
  {
    TextIsUpToNul(c, pos, Piece(left, room));
    var raw, n := c[pos..pos + left], Piece(left, room);
    assert raw[..n] == c[pos..pos + n];
    assert raw[n..] == c[pos + n..pos + left];
  }

  lemma Assoc(x: seq<byte>, y: seq<byte>, z: seq<byte>)
    ensures x + (y + z) == x + y + z
  {
  }

  // ---------------------------------------------------------------- a write, piece by piece

  /** The content when the bytes of `data` from `start` on are still to be written. */
  function WriteFrom(c: seq<byte>, offset: nat, data: seq<byte>, start: nat, room: nat, size: nat): seq<byte>
    requires 0 < size && start <= |data| && offset + |data| <= |c|
    decreases |data| - start, room == 0
  {
    if start == |data| then c
    else
      var n := Piece(|data| - start, room);
      WriteFrom(Splice(c, offset + start, Cut(data[start..start + n])), offset, data, start + n, size, size)
  }

  lemma {:induction false} WriteIsOneStore(c: seq<byte>, offset: nat, data: seq<byte>, start: nat, room: nat, size: nat)
    requires 0 < size && start <= |data| && offset + |data| <= |c|
    ensures WriteFrom(c, offset, data, start, room, size)
            == Splice(c, offset + start, Stored(data[start..], room, size))
    decreases |data| - start, room == 0
  {
    var rest := data[start..];
    if start == |data| {
      assert rest == [];
    } else {
      var n := Piece(|data| - start, room);
      var head, tail := Cut(data[start..start + n]), Stored(data[start + n..], size, size);
      WriteIsOneStore(Splice(c, offset + start, head), offset, data, start + n, size, size);
      SpliceTwice(c, offset + start, head, tail);
      assert rest[..n] == data[start..start + n];
      assert rest[n..] == data[start + n..];
      assert Stored(rest, room, size) == head + tail;
    }
  }

  lemma WholeWrite(c: seq<byte>, offset: nat, data: seq<byte>, room: nat, size: nat)
    requires 0 < size && offset + |data| <= |c|
    ensures WriteFrom(c, offset, data, 0, room, size) == Splice(c, offset, Stored(data, room, size))
  {
    WriteIsOneStore(c, offset, data, 0, room, size);
    assert data[0..] == data;
  }

  lemma SpliceTwice(c: seq<byte>, at: nat, a: seq<byte>, b: seq<byte>)
    requires at + |a| + |b| <= |c|
    ensures Splice(Splice(c, at, a), at + |a|, b) == Splice(c, at, a + b)
  {
  }

  /**
   Writing the bytes of `data` from `start` on, `at` bytes into a block, is what is left of a write that ends in
   `goal`.
   */
  ghost predicate Pending(c: seq<byte>, size: nat, offset: nat, data: seq<byte>, start: nat, at: nat, goal: seq<byte>) {
    && 0 < size && at <= size && start <= |data| && offset + |data| <= |c|
    && WriteFrom(c, offset, data, start, size - at, size) == goal
  }

  /**
   Where a write loop stands: `start` bytes are stored, the next ones go `at` bytes into block `i`, other blocks
   are kept.
   */
  ghost predicate Writing(list: seq<nat>, disk0: seq<seq<byte>>, disk: seq<seq<byte>>, size: nat, i: nat, at: nat,
                          offset: nat,
                          data: seq<byte>, start: nat, goal: seq<byte>)
  {
    && BlocksSized(disk, size) && KeptOutside(list, disk0, disk)
    && Pending(Content(list, disk), size, offset, data, start, at, goal)
    && (start < |data| ==> offset + start == At(i, size) + at)
  }

  /** One turn of a write loop: with `n` bytes stored, the rest of the write ends the same. */
  lemma WriteStep(c: seq<byte>, c': seq<byte>, size: nat, offset: nat, data: seq<byte>, start: nat, at: nat, n: nat,
                  pos: nat, goal: seq<byte>)
    requires Pending(c, size, offset, data, start, at, goal) && start < |data| && n == Piece(|data| - start, size - at)
    requires pos == offset + start && c' == Splice(c, pos, Cut(data[start..start + n]))
    ensures Pending(c', size, offset, data, start + n, 0, goal)
  {
  }

  // ---------------------------------------------------------------- what becomes of each byte

  /** Where the piece begins that byte `k` of a request is in, when the first piece has `room` bytes. */
  function PieceStart(k: nat, room: nat, size: nat): (start: nat)
    requires 0 < size
    ensures start <= k
    decreases k, room == 0
  {
    if k < room then 0 else room + PieceStart(k - room, size, size)
  }

  /** A NUL byte stands in the same piece, at `k` or before. */
  predicate NulIn(d: seq<byte>, start: nat, k: nat)
    requires start <= k < |d|
  {
    exists j :: start <= j <= k && d[j] == 0
  }

  lemma NulInTail(d: seq<byte>, n: nat, start: nat, k: nat)
    requires n + start <= n + k < |d|
    ensures NulIn(d[n..], start, k) <==> NulIn(d, n + start, n + k)
  {
    var t := d[n..];
    if NulIn(t, start, k) {
      var j :| start <= j <= k && t[j] == 0;
      assert d[n + j] == 0;
    }
    if NulIn(d, n + start, n + k) {
      var j :| n + start <= j <= n + k && d[j] == 0;
      assert t[j - n] == 0;
    }
  }

  lemma {:induction false} ZerosAt(n: nat, k: nat)
    requires k < n
    ensures Zeros(n)[k] == 0
  {
    if k == 0 {
    } else {
      ZerosAt(n - 1, k - 1);
    }
  }

  /** `string_substring` byte by byte. */
  lemma {:induction false} CutAt(d: seq<byte>, k: nat)
    requires k < |d|
    ensures Cut(d)[k] == if NulIn(d, 0, k) then 0 else d[k]
  {
    if d[0] == 0 {
      ZerosAt(|d|, k);
    } else if k != 0 {
      CutAt(d[1..], k - 1);
      NulInTail(d, 1, 0, k - 1);
      assert NulIn(d, 0, k) <==> NulIn(d, 1, k);
    }
  }

  lemma NulInHead(d: seq<byte>, n: nat, k: nat)
    requires k < n <= |d|
    ensures NulIn(d[..n], 0, k) <==> NulIn(d, 0, k)
  {
    var h := d[..n];
    if NulIn(d, 0, k) {
      var j :| 0 <= j <= k && d[j] == 0;
      assert h[j] == 0;
    }
  }

  /** A byte of a write is lost if and only if a NUL byte comes before it in its piece. */
  lemma {:induction false} StoredAt(data: seq<byte>, room: nat, size: nat, k: nat)
    requires 0 < size && k < |data|
    ensures Stored(data, room, size)[k] == if NulIn(data, PieceStart(k, room, size), k) then 0 else data[k]
    decreases |data|, room == 0
  {
    var n := Piece(|data|, room);
    if k < n {
      CutAt(data[..n], k);
      NulInHead(data, n, k);
    } else {
      StoredAt(data[n..], size, size, k - n);
      NulInTail(data, n, PieceStart(k - n, size, size), k - n);
    }
  }

  /** The first `n` bytes of a request without those that have a NUL byte before them in their piece. */
  ghost function Visible(raw: seq<byte>, room: nat, size: nat, n: nat): seq<byte>
    requires 0 < size && n <= |raw|
  {
    if n == 0 then []
    else
      Visible(raw, room, size, n - 1)
      + if NulIn(raw, PieceStart(n - 1, room, size), n - 1) then [] else [raw[n - 1]]
  }

  /** In the first piece everything before the first NUL byte is visible. */
  lemma {:induction false} VisibleHead(raw: seq<byte>, room: nat, size: nat, n: nat)
    requires 0 < size && n <= room && n <= |raw|
    ensures Visible(raw, room, size, n) == UpToNul(raw[..n])
  {
    if n == 0 {
    } else {
      VisibleHead(raw, room, size, n - 1);
      UpToNulSnoc(raw, n - 1);
    }
  }

  lemma UpToNulSnoc(d: seq<byte>, n: nat)
    requires n < |d|
    ensures UpToNul(d[..n + 1]) == UpToNul(d[..n]) + if NulIn(d, 0, n) then [] else [d[n]]
    decreases n
  {
    if n == 0 {
      assert d[..1][1..] == [];
    } else if d[0] != 0 {
      UpToNulSnoc(d[1..], n - 1);
      assert d[..n + 1][1..] == d[1..][..n] && d[..n][1..] == d[1..][..n - 1];
      NulInTail(d, 1, 0, n - 1);
      assert NulIn(d, 0, n) <==> NulIn(d, 1, n);
    }
  }

  /** Behind the first piece the request begins anew. */
  lemma {:induction false} VisibleTail(raw: seq<byte>, room: nat, size: nat, m: nat)
    requires 0 < size && room + m <= |raw|
    ensures Visible(raw, room, size, room + m) == Visible(raw, room, size, room) + Visible(raw[room..], size, size, m)
    decreases m
  {
    if m == 0 {
    } else {
      VisibleTail(raw, room, size, m - 1);
      NulInTail(raw, room, PieceStart(m - 1, size, size), m - 1);
    }
  }

  /** A read returns exactly what is visible. */
  lemma {:induction false} FetchedIsVisible(raw: seq<byte>, room: nat, size: nat)
    requires 0 < size
    ensures Fetched(raw, room, size) == Visible(raw, room, size, |raw|)
    decreases |raw|, room == 0
  {
    if raw == [] {
    } else {
      var n := Piece(|raw|, room);
      FetchedIsVisible(raw[n..], size, size);
      VisibleParts(raw, room, size, n, raw[..n], raw[n..]);
      FetchedParts(raw, room, size, n, raw[..n], raw[n..]);
    }
  }

  lemma FetchedParts(raw: seq<byte>, room: nat, size: nat, n: nat, head: seq<byte>, tail: seq<byte>)
    requires 0 < size && raw != [] && n == Piece(|raw|, room) && head == raw[..n] && tail == raw[n..]
    ensures Fetched(raw, room, size) == UpToNul(head) + Fetched(tail, size, size)
  {
  }

  lemma VisibleParts(raw: seq<byte>, room: nat, size: nat, n: nat, head: seq<byte>, tail: seq<byte>)
    requires 0 < size && n == Piece(|raw|, room) && head == raw[..n] && tail == raw[n..]
    ensures Visible(raw, room, size, |raw|) == UpToNul(head) + Visible(tail, size, size, |tail|)
  {
    VisibleHead(raw, room, size, n);
    if room <= |raw| {
      VisibleTail(raw, room, size, |raw| - room);
    } else {
      assert UpToNul(raw[..n]) + [] == UpToNul(raw[..n]);
    }
  }

  lemma {:induction false} PieceMultiple(m: nat, size: nat)
    requires 0 < size
    ensures PieceStart(m, size, size) == m / size * size
    decreases m
  {
    if m < size {
      QuotientUnique(0, size, m, m);
    } else {
      PieceMultiple(m - size, size);
      var q, r := (m - size) / size, (m - size) % size;
      assert (q + 1) * size == q * size + size;
      QuotientUnique(q + 1, size, r, m);
    }
  }

  /** The piece of byte `k` begins where the block of the file does, or else the request. */
  lemma PieceIsBlock(offset: nat, size: nat, k: nat)
    requires 0 < size
    ensures var block := (offset + k) / size * size;
            PieceStart(k, FirstRoom(offset, size), size) == if block <= offset then 0 else block - offset
  {
    var first, room := FirstBlock(offset, size), FirstRoom(offset, size);
    CeilDivCovers(offset, size);
    AtIsProduct(first, size);
    if k < room {
      InFirstBlock(first, size, offset + k);
    } else {
      InLaterBlock(first, size, offset + room, k - room);
      PieceMultiple(k - room, size);
      NothingBetween((k - room) / size, size, room);
    }
  }

  lemma InFirstBlock(first: nat, size: nat, pos: nat)
    requires 0 < size && first * size <= pos < first * size + size
    ensures pos / size * size == first * size
  {
    QuotientUnique(first, size, pos - first * size, pos);
  }

  lemma InLaterBlock(first: nat, size: nat, end: nat, m: nat)
    requires 0 < size && end == first * size + size
    ensures (end + m) / size * size == end + m / size * size
  {
    var q, r := m / size, m % size;
    assert (first + 1 + q) * size == first * size + size + q * size;
    QuotientUnique(first + 1 + q, size, r, end + m);
  }

  lemma NothingBetween(q: nat, size: nat, room: nat)
    ensures 0 <= q * size && (room + q * size <= 0 ==> room == 0 && q * size == 0)
  {
    TimesGrows(0, q, size);
  }

  /** A NUL byte comes before byte `k` of a request, or is it, and in the same block of the file. */
  predicate Hidden(d: seq<byte>, offset: nat, size: nat, k: nat)
    requires 0 < size && k < |d|
  {
    exists j :: 0 <= j <= k && d[j] == 0 && (offset + k) / size * size <= offset + j
  }

  lemma HiddenIs(d: seq<byte>, offset: nat, size: nat, k: nat)
    requires 0 < size && k < |d|
    ensures Hidden(d, offset, size, k) <==> NulIn(d, PieceStart(k, FirstRoom(offset, size), size), k)
  {
    PieceIsBlock(offset, size, k);
  }

  /** The bytes of a request that are not hidden, in order. */
  ghost function Unhidden(d: seq<byte>, offset: nat, size: nat, n: nat): seq<byte>
    requires 0 < size && n <= |d|
  {
    if n == 0 then []
    else Unhidden(d, offset, size, n - 1) + if Hidden(d, offset, size, n - 1) then [] else [d[n - 1]]
  }

  lemma {:induction false} UnhiddenIsVisible(d: seq<byte>, offset: nat, size: nat, n: nat)
    requires 0 < size && n <= |d|
    ensures Unhidden(d, offset, size, n) == Visible(d, FirstRoom(offset, size), size, n)
  {
    if n == 0 {
    } else {
      UnhiddenIsVisible(d, offset, size, n - 1);
      HiddenIs(d, offset, size, n - 1);
    }
  }

  /** Every byte of the file after a write: zero or as given where the request is, and what it was elsewhere. */
  ghost predicate Overwritten(before: seq<byte>, after: seq<byte>, offset: nat, data: seq<byte>, size: nat)
    requires 0 < size
  {
    |after| == |before| && offset + |data| <= |before| &&
    forall k {:trigger after[k]} :: 0 <= k < |after| ==>
      after[k] == if k < offset || offset + |data| <= k then before[k]
                  else if Hidden(data, offset, size, k - offset) then 0
                  else data[k - offset]
  }

  lemma StoreOverwrites(c: seq<byte>, offset: nat, data: seq<byte>, size: nat)
    requires 0 < size && offset + |data| <= |c|
    ensures Overwritten(c, Splice(c, offset, Stored(data, FirstRoom(offset, size), size)), offset, data, size)
  {
    var room := FirstRoom(offset, size);
    forall k | 0 <= k < |data|
      ensures Stored(data, room, size)[k] == if Hidden(data, offset, size, k) then 0 else data[k]
    {
      StoredAt(data, room, size, k);
      HiddenIs(data, offset, size, k);
    }
  }

  lemma ReadUnhidden(raw: seq<byte>, offset: nat, size: nat)
    requires 0 < size
    ensures Fetched(raw, FirstRoom(offset, size), size) == Unhidden(raw, offset, size, |raw|)
  {
    FetchedIsVisible(raw, FirstRoom(offset, size), size);
    UnhiddenIsVisible(raw, offset, size, |raw|);
  }
}
