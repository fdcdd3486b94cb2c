/** Files as lists of blocks over the bitmap: creating, writing, reading and deleting them. */
module FileSystem {
  import opened Bytes
  import opened Rounding
  import opened FileContent
  import BM = Bitmap

  type Files = map<string, seq<nat>>

  // ---------------------------------------------------------------- who owns a block

  ghost predicate Owned(files: Files, b: nat) {
    exists p :: p in files && Has(files[p], b)
  }

  /** No file lists a block twice, and no two files share one. */
  ghost predicate Apart(files: Files) {
    && (forall p :: p in files ==> Distinct(files[p]))
    && (forall p, q, b: nat {:trigger Has(files[p], b), Has(files[q], b)} ::
          p in files && q in files && p != q ==> !(Has(files[p], b) && Has(files[q], b)))
  }

  /**
   The bitmap says exactly which blocks are taken: those of the files, each in one place of one file, and
   those that were in use before there was any file. Every file has a block.
   */
  ghost predicate Ownership(used: seq<bool>, files: Files, reserved: set<nat>) {
    && Apart(files)
    && (forall p :: p in files ==> files[p] != [])
    && (forall p, b: nat {:trigger Has(files[p], b)} :: p in files && Has(files[p], b) ==> b < |used| && b !in reserved)
    && forall b :: 0 <= b < |used| ==> (used[b] <==> b in reserved || Owned(files, b))
  }

  /** A free block belongs to nobody. */
  lemma FreeIsUnowned(used: seq<bool>, files: Files, reserved: set<nat>, b: nat)
    requires Ownership(used, files, reserved) && b < |used| && !used[b]
    ensures b !in reserved && forall p :: p in files ==> !Has(files[p], b)
  {
    forall p | p in files
      ensures !Has(files[p], b)
    {
      if Has(files[p], b) { assert Owned(files, b); }
    }
  }

  /** Who owns a block after a file got the list `list`. */
  lemma OwnedAfter(files: Files, path: string, list: seq<nat>, b: nat)
    requires path in files && Has(files[path], b) ==> Has(list, b)
    ensures Owned(files[path := list], b) <==> Owned(files, b) || Has(list, b)
  {
    var files' := files[path := list];
    if Has(list, b) { assert path in files' && Has(files'[path], b); }
    if Owned(files, b) {
      var p :| p in files && Has(files[p], b);
      assert p in files' && Has(files'[p], b);
    }
    if Owned(files', b) {
      var p :| p in files' && Has(files'[p], b);
      if p != path { assert p in files && Has(files[p], b); }
    }
  }

  lemma {:induction false} HasConcat(a: seq<nat>, more: seq<nat>, b: nat)
    ensures Has(a + more, b) <==> Has(a, b) || Has(more, b)
  {
    if more == [] {
      assert a + more == a;
    } else {
      var front, x := more[..|more| - 1], more[|more| - 1];
      HasConcat(a, front, b);
      HasSnoc(a + front, x, b);
      assert a + more == a + front + [x];
    }
  }

  lemma {:induction false} DistinctConcat(a: seq<nat>, more: seq<nat>)
    requires Distinct(a) && Distinct(more) && forall b: nat :: Has(more, b) ==> !Has(a, b)
    ensures Distinct(a + more)
  {
    if more == [] {
      assert a + more == a;
    } else {
      var front, x := more[..|more| - 1], more[|more| - 1];
      DistinctConcat(a, front);
      HasConcat(a, front, x);
      HasSnoc(a + front, x, x);
      assert a + more == a + front + [x];
    }
  }

  /** The blocks of a consistent file exist. */
  lemma Listed(used: seq<bool>, files: Files, reserved: set<nat>, path: string)
    requires Ownership(used, files, reserved) && path in files
    ensures OnDisk(files[path], |used|)
  {
    forall i | 0 <= i < |files[path]|
      ensures files[path][i] < |used|
    {
      HasAt(files[path], i);
    }
  }

  /** Free blocks, all different, may go to a file: to one that grows, or to a new one, whose list was empty. */
  lemma GrowOwnership(used: seq<bool>, files: Files, reserved: set<nat>, path: string, list: seq<nat>, more: seq<nat>)
    requires Ownership(used, files, reserved) && list == (if path in files then files[path] else [])
    requires Distinct(more) && list + more != []
    requires forall b: nat :: Has(more, b) ==> b < |used| && !used[b]
    ensures Ownership(BM.SetAll(used, more, true), files[path := list + more], reserved)
  {
    var used', files' := BM.SetAll(used, more, true), files[path := list + more];
    forall b: nat | Has(more, b)
      ensures b !in reserved && forall p :: p in files ==> !Has(files[p], b)
    {
      FreeIsUnowned(used, files, reserved, b);
    }
    GrowApart(files, path, list, more);
    forall k | 0 <= k < |used'|
      ensures used'[k] <==> k in reserved || Owned(files', k)
    {
      BM.SetAllAt(used, more, true, k);
      HasIn(more, k);
      HasConcat(list, more, k);
      OwnedAfter(files, path, list + more, k);
      if Has(list, k) { assert Owned(files, k); }
    }
    forall b: nat | Has(list + more, b)
      ensures b < |used| && b !in reserved
    {
      HasConcat(list, more, b);
    }
  }

  lemma GrowApart(files: Files, path: string, list: seq<nat>, more: seq<nat>)
    requires Apart(files) && list == (if path in files then files[path] else []) && Distinct(more)
    requires forall b: nat :: Has(more, b) ==> forall p :: p in files ==> !Has(files[p], b)
    ensures Apart(files[path := list + more])
  {
    DistinctConcat(list, more);
    forall p, b: nat | p in files && p != path
      ensures !(Has(files[p], b) && Has(list + more, b))
    {
      HasConcat(list, more, b);
    }
  }

  /** A deleted file gives back exactly its own blocks. */
  lemma DeleteOwnership(used: seq<bool>, files: Files, reserved: set<nat>, path: string)
    requires Ownership(used, files, reserved) && path in files
    ensures Ownership(BM.SetAll(used, files[path], false), files - {path}, reserved)
  {
    var files', used' := files - {path}, BM.SetAll(used, files[path], false);
    forall k | 0 <= k < |used'|
      ensures used'[k] <==> k in reserved || Owned(files', k)
    {
      BM.SetAllAt(used, files[path], false, k);
      HasIn(files[path], k);
      OwnedWithout(files, path, k);
      if Has(files[path], k) { assert Owned(files, k); }
    }
  }

  lemma OwnedWithout(files: Files, path: string, b: nat)
    requires Apart(files) && path in files
    ensures Owned(files - {path}, b) <==> Owned(files, b) && !Has(files[path], b)
  {
    var files' := files - {path};
    if Owned(files', b) {
      var p :| p in files' && Has(files'[p], b);
      assert p in files && Has(files[p], b);
    }
    if Owned(files, b) && !Has(files[path], b) {
      var p :| p in files && Has(files[p], b);
      assert p in files' && Has(files'[p], b);
    }
  }

  /** If the metadata file stays, its blocks are free and its own at once. */
  lemma KeptFileBreaksOwnership(used: seq<bool>, files: Files, reserved: set<nat>, path: string)
    requires Ownership(used, files, reserved) && path in files
    ensures !Ownership(BM.SetAll(used, files[path], false), files, reserved)
  {
    var b := files[path][0];
    HasAt(files[path], 0);
    HasIn(files[path], b);
    BM.SetAllAt(used, files[path], false, b);
    assert Owned(files, b) && !BM.SetAll(used, files[path], false)[b];
  }

  // ---------------------------------------------------------------- the file system

  datatype ReadReply = Data(bytes: seq<byte>) | NoData

  class FileSystem {
    const bitmap: BM.Bitmap
    const blockSize: nat
    /** Blocks in use when there was no file yet. */
    ghost const reserved: set<nat>
    /** The block list in each metadata file. */
    var files: Files
    /** The block files. */
    var disk: seq<seq<byte>>
    /** `cantidadBloquesLibres`: what the last count of free blocks found. */
    var counted: int

    ghost predicate Valid()
      reads this`files, this`disk, bitmap.bytes
    {
      && 0 < blockSize && 0 < bitmap.bytes.Length && bitmap.blockCount == |disk| == 8 * bitmap.bytes.Length
      && BlocksSized(disk, blockSize)
      && Ownership(bitmap.Used(), files, reserved)
    }

    constructor (bitmap: BM.Bitmap, blockSize: nat, disk: seq<seq<byte>>, ghost reserved: set<nat>)
      requires 0 < blockSize && 0 < bitmap.bytes.Length && bitmap.blockCount == |disk| == 8 * bitmap.bytes.Length
      requires BlocksSized(disk, blockSize)
      requires forall b :: 0 <= b < |disk| ==> (bitmap.Used()[b] <==> b in reserved)
      ensures Valid() && files == map[] && this.disk == disk && this.bitmap == bitmap
      ensures counted == BM.Free(bitmap.Used())
    {
      this.bitmap := bitmap;
      this.blockSize := blockSize;
      this.disk := disk;
      this.reserved := reserved;
      files := map[];
      new;
      counted := bitmap.CountFree();
    }

    /**
     `crearArchivo`: a new file with one block. The count it looks at is that of the last write or of the
     start, so it can refuse although there is room.
     */
    method Create(path: string) returns (ok: bool)
      requires Valid()
      modifies this`files, bitmap.bytes
      ensures Valid()
      ensures ok <==> path !in old(files) && 1 <= counted && 0 < BM.Free(old(bitmap.Used()))
      ensures ok ==> files == old(files)[path := [BM.LeastFree(old(bitmap.Used()))]]
      ensures ok ==> bitmap.Used() == BM.SetAll(old(bitmap.Used()), files[path], true)
      ensures !ok ==> files == old(files) && bitmap.Used() == old(bitmap.Used())
    {
      BM.FreeSome(bitmap.Used());
      if path !in files && 1 <= counted {
        var block := bitmap.FindFirstFree();
        if block >= 0 {
          OneBlock(bitmap.Used(), files, path, block);
          files := files[path := [block]];
          bitmap.MarkUsed(block);
          bitmap.MarkUsed(block);
          return true;
        }
      }
      return false;
    }

    lemma OneBlock(used: seq<bool>, fs: Files, path: string, b: nat)
      requires Ownership(used, fs, reserved) && path !in fs && b < |used| && !used[b]
      ensures Ownership(used[b := true], fs[path := [b]], reserved)
      ensures used[b := true][b := true] == used[b := true] == BM.SetAll(used, [b], true)
    {
      MarkOne(used, b);
      HasOne(b);
      GrowOwnership(used, fs, reserved, path, [], [b]);
      assert [] + [b] == [b];
    }

    lemma MarkOne(used: seq<bool>, b: nat)
      requires b < |used|
      ensures BM.SetAll(used, [b], true) == used[b := true]
    {
      assert BM.SetAll(used[b := true], [], true) == used[b := true];
    }

    /** `borrarArchivo`: every block is marked free, twice, before the metadata file is removed. */
    method Delete(path: string, removable: bool) returns (ok: bool)
      requires Valid() && path in files
      modifies this`files, bitmap.bytes
      ensures ok == removable && (Valid() <==> ok)
      ensures files == if ok then old(files) - {path} else old(files)
      ensures bitmap.Used() == BM.SetAll(old(bitmap.Used()), old(files)[path], false)
    {
      ghost var used, list := bitmap.Used(), files[path];
      Listed(used, files, reserved, path);
      bitmap.FreeAll(files[path]);
      bitmap.FreeAll(files[path]);
      SetTwice(used, list);
      if removable {
        DeleteOwnership(used, files, reserved, path);
        files := files - {path};
      } else {
        KeptFileBreaksOwnership(used, files, reserved, path);
      }
      return removable;
    }

    lemma SetTwice(used: seq<bool>, list: seq<nat>)
      ensures BM.SetAll(BM.SetAll(used, list, false), list, false) == BM.SetAll(used, list, false)
    {
      var once := BM.SetAll(used, list, false);
      forall k | 0 <= k < |used|
        ensures BM.SetAll(once, list, false)[k] == once[k]
      {
        BM.SetAllAt(used, list, false, k);
        BM.SetAllAt(once, list, false, k);
      }
    }

    // -------------------------------------------------------------- reading

    /**
     `obtenerDatos`: answers a request that lies inside the file, with its bytes but for those that a NUL byte hides in
     their block.
     */
    method Read(path: string, offset: nat, size: nat) returns (reply: ReadReply)
      requires Valid() && path in files
      ensures offset + size > blockSize * |files[path]| ==> reply == NoData
      ensures offset + size <= blockSize * |files[path]| ==>
                ReadFits(path, offset, size) &&
                reply == Data(Unhidden(Content(files[path], disk)[offset..offset + size], offset, blockSize, size))
    {
      reply := ReadData(path, offset, size);
      if offset + size <= blockSize * |files[path]| {
        ReadUnhidden(Content(files[path], disk)[offset..offset + size], offset, blockSize);
      }
    }

    method ReadData(path: string, offset: nat, size: nat) returns (reply: ReadReply)
      requires Valid() && path in files
      ensures offset + size > blockSize * |files[path]| ==> reply == NoData
      ensures offset + size <= blockSize * |files[path]| ==>
                ReadFits(path, offset, size) &&
                reply == Data(Fetched(Content(files[path], disk)[offset..offset + size],
                                      FirstRoom(offset, blockSize), blockSize))
    {
      reply := NoData;
      if offset + size <= blockSize * |files[path]| {
        AtIsProduct(|files[path]|, blockSize);
        Listed(bitmap.Used(), files, reserved, path);
        ContentSize(files[path], disk, blockSize);
        var bytes := ReadRange(files[path], offset, size);
        reply := Data(bytes);
      }
    }

    /** `leerArchivoFs` for a request inside the file. */
    method ReadRange(list: seq<nat>, offset: nat, size: nat) returns (bytes: seq<byte>)
      requires 0 < blockSize && BlocksSized(disk, blockSize) && OnDisk(list, |disk|)
      requires offset + size <= |Content(list, disk)|
      ensures bytes == Fetched(Content(list, disk)[offset..offset + size], FirstRoom(offset, blockSize), blockSize)
    {
      var first, skip := Begin(offset);
      bytes := ReadBlocks(list, first, skip, offset, size);
      ReadIsFetched([], Content(list, disk), offset, size, FirstRoom(offset, blockSize), blockSize);
    }

    ghost predicate ReadFits(path: string, offset: nat, size: nat)
      reads this
      requires path in files
    {
      0 < blockSize && offset + size <= |Content(files[path], disk)|
    }

    /** The loop of `leerArchivoFs`. No block index runs past the list, although the loop would allow one. */
    method ReadBlocks(list: seq<nat>, first: nat, skip: nat, offset: nat, size: nat) returns (out: seq<byte>)
      requires 0 < blockSize && BlocksSized(disk, blockSize) && OnDisk(list, |disk|)
      requires offset + size <= |Content(list, disk)| && skip <= blockSize && At(first, blockSize) + skip == offset
      ensures out == ReadFrom([], Content(list, disk), offset, size, blockSize - skip, blockSize)
    {
      var i, at := first, skip;
      var left := size;
      out := [];
      ghost var c := Content(list, disk);
      ghost var pos := offset;
      while i <= |list|
        invariant 0 <= i && 0 <= at <= blockSize && 0 <= left && pos + left == offset + size
        invariant 0 < left ==> pos == At(i, blockSize) + at
        invariant ReadFrom(out, c, pos, left, blockSize - at, blockSize)
                  == ReadFrom([], c, offset, size, blockSize - skip, blockSize)
        decreases left, |list| + 1 - i
      {
        if left == 0 {
          return out;
        }
        Reaches(list, disk, blockSize, i, pos);
        ghost var n := Piece(left, blockSize - at);
        var piece;
        if at + left > blockSize {
          piece := ReadPiece(list, i, at, blockSize - at);
          left := left - (blockSize - at);
        } else {
          piece := ReadPiece(list, i, at, left);
          left := 0;
          i := |list|;
        }
        out := out + piece;
        pos := pos + n;
        i := i + 1;
        at := 0;
      }
      if left > 0 {
        Reaches(list, disk, blockSize, i, pos);
      }
    }

    /** The `fread` of one block file, and what `string_append` takes of it. */
    method ReadPiece(list: seq<nat>, i: nat, at: nat, n: nat) returns (piece: seq<byte>)
      requires BlocksSized(disk, blockSize) && OnDisk(list, |disk|) && i < |list| && at + n <= blockSize
      ensures At(i, blockSize) + at + n <= |Content(list, disk)|
      ensures piece == Text(Content(list, disk), At(i, blockSize) + at, n)
    {
      TextInBlock(list, disk, blockSize, i, at, n);
      TextIsUpToNul(disk[list[i]], at, n);
      piece := UpToNul(disk[list[i]][at..at + n]);
    }

    /** Where a request starts: which block of the file, and how far into it. */
    method Begin(offset: nat) returns (i: nat, at: int)
      requires 0 < blockSize
      ensures 0 <= at <= blockSize && At(i, blockSize) + at == offset && blockSize - at == FirstRoom(offset, blockSize)
    {
      var index := CeilDiv(offset, blockSize);
      if index == 0 {
        i := 0;
        at := offset;
      } else {
        i := index - 1;
        at := offset - i * blockSize;
      }
      AtIsProduct(i, blockSize);
    }

    // -------------------------------------------------------------- writing

    /** The blocks a file will have once it has at least `needed`. */
    ghost function Grown(path: string, needed: nat): seq<nat>
      reads this`files, bitmap.bytes
      requires path in files && needed - |files[path]| <= BM.Free(bitmap.Used())
    {
      var missing := needed - |files[path]|;
      if missing <= 0 then files[path] else files[path] + BM.Picks(bitmap.Used(), missing)
    }

    /**
     `escribirDatos`: fails exactly when the blocks it lacks are not free. Otherwise the file, grown by as many free
     blocks as it lacks, holds `data` at `offset`, but for the bytes that a NUL byte hides in their block, which are
     zero; no other byte of any file has changed.
     */
    method Write(path: string, offset: nat, data: seq<byte>) returns (ok: bool)
      requires Valid() && path in files
      modifies this`files, this`disk, this`counted, bitmap.bytes
      ensures Valid() && counted == BM.Free(old(bitmap.Used()))
      ensures ok <==> CeilDiv(offset + |data|, blockSize) - |old(files)[path]| <= BM.Free(old(bitmap.Used()))
      ensures !ok ==> files == old(files) && disk == old(disk) && bitmap.Used() == old(bitmap.Used())
      ensures ok ==> files == old(files)[path := old(Grown(path, CeilDiv(offset + |data|, blockSize)))]
      ensures ok ==>
                Overwritten(Content(files[path], old(disk)), Content(files[path], disk), offset, data, blockSize)
      ensures ok && NoNul(data) ==> Content(files[path], disk) == Splice(Content(files[path], old(disk)), offset, data)
      ensures ok ==> forall q :: q in files && q != path ==> Content(files[q], disk) == Content(files[q], old(disk))
    {
      ok := WriteData(path, offset, data);
      if ok { StoreOverwrites(Content(files[path], old(disk)), offset, data, blockSize); }
    }

    /** A file grows by free blocks, and by no more than it takes to reach its new end. */
    lemma WriteGrows(path: string, end: nat)
      requires Valid() && path in files && CeilDiv(end, blockSize) - |files[path]| <= BM.Free(bitmap.Used())
      ensures GrowsBy(bitmap.Used(), files[path], Grown(path, CeilDiv(end, blockSize)), end)
    {
      var list, needed := files[path], CeilDiv(end, blockSize);
      Reaching(|list|, needed, end);
      if |list| < needed {
        var picks := BM.Picks(bitmap.Used(), needed - |list|);
        BM.PicksWereFree(bitmap.Used(), needed - |list|);
        assert Grown(path, needed) == list + picks;
        GrownFits(bitmap.Used(), list, picks, needed, end);
      }
    }

    /** The list has grown by free blocks, and by no more than it takes to reach `end`. */
    ghost predicate GrowsBy(used: seq<bool>, list: seq<nat>, grown: seq<nat>, end: nat) {
      && |list| <= |grown| && grown[..|list|] == list
      && end <= At(|grown|, blockSize) && (|grown| == |list| || At(|grown| - 1, blockSize) < end)
      && forall i :: |list| <= i < |grown| ==> grown[i] < |used| && !used[grown[i]]
    }

    lemma GrownFits(used: seq<bool>, list: seq<nat>, picks: seq<nat>, needed: nat, end: nat)
      requires 0 < blockSize && needed == CeilDiv(end, blockSize) == |list| + |picks| && picks != []
      requires forall i :: 0 <= i < |picks| ==> picks[i] < |used| && !used[picks[i]]
      ensures GrowsBy(used, list, list + picks, end)
    {
      Reaching(needed, needed, end);
      forall i | |list| <= i < |list + picks|
        ensures (list + picks)[i] < |used| && !used[(list + picks)[i]]
      {
        assert (list + picks)[i] == picks[i - |list|];
      }
    }

    lemma Reaching(n: nat, needed: nat, end: nat)
      requires 0 < blockSize && needed == CeilDiv(end, blockSize)
      ensures needed <= n ==> end <= At(n, blockSize)
      ensures n == needed && 0 < n ==> At(n - 1, blockSize) < end
    {
      CeilDivCovers(end, blockSize);
      if needed < n { FrameInside(needed, n, blockSize); }
    }

    method WriteData(path: string, offset: nat, data: seq<byte>) returns (ok: bool)
      requires Valid() && path in files
      modifies this`files, this`disk, this`counted, bitmap.bytes
      ensures Valid() && counted == BM.Free(old(bitmap.Used()))
      ensures ok <==> CeilDiv(offset + |data|, blockSize) - |old(files)[path]| <= BM.Free(old(bitmap.Used()))
      ensures !ok ==> files == old(files) && disk == old(disk) && bitmap.Used() == old(bitmap.Used())
      ensures ok ==> files == old(files)[path := old(Grown(path, CeilDiv(offset + |data|, blockSize)))]
      ensures ok ==> HoldsAfter(Content(files[path], old(disk)), Content(files[path], disk), offset, data)
      ensures ok && NoNul(data) ==> Content(files[path], disk) == Splice(Content(files[path], old(disk)), offset, data)
      ensures ok ==> forall q :: q in files && q != path ==> Content(files[q], disk) == Content(files[q], old(disk))
    {
      ok := Reserve(path, CeilDiv(offset + |data|, blockSize));
      if ok {
        Store(path, offset, data);
        if NoNul(data) { StoredWhole(data, FirstRoom(offset, blockSize), blockSize); }
      }
    }

    /** The first half of a write: counts the free blocks and gives the file those it lacks. */
    method Reserve(path: string, needed: nat) returns (ok: bool)
      requires Valid() && path in files
      modifies this`files, this`counted, bitmap.bytes
      ensures Valid() && counted == BM.Free(old(bitmap.Used()))
      ensures ok <==> needed - |old(files)[path]| <= BM.Free(old(bitmap.Used()))
      ensures !ok ==> files == old(files) && bitmap.Used() == old(bitmap.Used())
      ensures ok ==> files == old(files)[path := old(Grown(path, needed))] && needed <= |files[path]|
    {
      counted := bitmap.CountFree();
      assert Valid();
      ok := counted >= needed - |files[path]|;
      if ok {
        Extend(path, needed);
      }
    }

    method Extend(path: string, needed: nat)
      requires Valid() && path in files && needed - |files[path]| <= BM.Free(bitmap.Used())
      modifies this`files, bitmap.bytes
      ensures Valid() && files == old(files)[path := old(Grown(path, needed))] && needed <= |files[path]|
    {
      if |files[path]| < needed {
        Grow(path, needed - |files[path]|);
      } else {
        assert files[path := files[path]] == files;
      }
    }

    /** The second half of a write: the file is long enough by now. */
    method Store(path: string, offset: nat, data: seq<byte>)
      requires Valid() && path in files && CeilDiv(offset + |data|, blockSize) <= |files[path]|
      modifies this`disk
      ensures Valid() && HoldsAfter(Content(files[path], old(disk)), Content(files[path], disk), offset, data)
      ensures forall q :: q in files && q != path ==> Content(files[q], disk) == Content(files[q], old(disk))
    {
      Listed(bitmap.Used(), files, reserved, path);
      Fits(path, offset + |data|);
      StoreRange(files[path], offset, data);
      OthersKept(files, path, old(disk), disk);
    }

    method StoreRange(list: seq<nat>, offset: nat, data: seq<byte>)
      requires 0 < blockSize && BlocksSized(disk, blockSize) && OnDisk(list, |disk|) && Distinct(list)
      requires offset + |data| <= |Content(list, disk)|
      modifies this`disk
      ensures BlocksSized(disk, blockSize) && KeptOutside(list, old(disk), disk)
      ensures HoldsAfter(Content(list, old(disk)), Content(list, disk), offset, data)
    {
      var first, skip := Begin(offset);
      WriteBlocks(list, first, skip, offset, data);
      WholeWrite(Content(list, old(disk)), offset, data, FirstRoom(offset, blockSize), blockSize);
    }

    lemma OthersKept(fs: Files, path: string, before: seq<seq<byte>>, after: seq<seq<byte>>)
      requires Apart(fs) && path in fs && KeptOutside(fs[path], before, after)
      ensures forall q :: q in fs && q != path ==> Content(fs[q], after) == Content(fs[q], before)
    {
      forall q | q in fs && q != path
        ensures Content(fs[q], after) == Content(fs[q], before)
      {
        forall i | 0 <= i < |fs[q]|
          ensures Has(fs[q], fs[q][i])
        {
          HasAt(fs[q], i);
        }
        ContentSame(fs[q], before, after);
      }
    }

    /** `data` stands at `offset`; every other byte is the old one. */
    ghost predicate HoldsAfter(before: seq<byte>, after: seq<byte>, offset: nat, data: seq<byte>) {
      && 0 < blockSize && offset + |data| <= |before|
      && after == Splice(before, offset, Stored(data, FirstRoom(offset, blockSize), blockSize))
    }

    /** A file with as many blocks as the rounded-up quotient says reaches far enough. */
    lemma Fits(path: string, end: nat)
      requires Valid() && path in files && CeilDiv(end, blockSize) <= |files[path]|
      ensures end <= |Content(files[path], disk)|
    {
      Listed(bitmap.Used(), files, reserved, path);
      ContentSize(files[path], disk, blockSize);
      CeilDivCovers(end, blockSize);
      if CeilDiv(end, blockSize) < |files[path]| {
        FrameInside(CeilDiv(end, blockSize), |files[path]|, blockSize);
      }
    }

    /** `asignar_nuevos_bloques`. */
    method Grow(path: string, missing: nat)
      requires Valid() && path in files && missing <= BM.Free(bitmap.Used())
      modifies this`files, bitmap.bytes
      ensures Valid()
      ensures files == old(files)[path := old(files)[path] + BM.Picks(old(bitmap.Used()), missing)]
    {
      PicksMayGrow(bitmap.Used(), missing);
      GrowOwnership(bitmap.Used(), files, reserved, path, files[path], BM.Picks(bitmap.Used(), missing));
      var list := bitmap.Assign(missing, files[path]);
      files := files[path := list];
    }

    lemma PicksMayGrow(used: seq<bool>, n: nat)
      requires n <= BM.Free(used)
      ensures Distinct(BM.Picks(used, n))
      ensures forall b: nat :: Has(BM.Picks(used, n), b) ==> b < |used| && !used[b]
    {
      var picks := BM.Picks(used, n);
      BM.PicksWereFree(used, n);
      DistinctAt(picks);
      forall b: nat | Has(picks, b)
        ensures b < |used| && !used[b]
      {
        HasIn(picks, b);
      }
    }

    /** `escribirDatosEnBloques`. */
    method WriteBlocks(list: seq<nat>, first: nat, skip: nat, offset: nat, data: seq<byte>)
      requires 0 < blockSize && BlocksSized(disk, blockSize) && OnDisk(list, |disk|) && Distinct(list)
      requires offset + |data| <= |Content(list, disk)| && skip <= blockSize && At(first, blockSize) + skip == offset
      modifies this`disk
      ensures BlocksSized(disk, blockSize) && KeptOutside(list, old(disk), disk)
      ensures Content(list, disk) == WriteFrom(Content(list, old(disk)), offset, data, 0, blockSize - skip, blockSize)
    {
      var i, at := first, skip;
      var left, start := |data|, 0;
      ghost var done, disk0 := 0, disk;
      ghost var goal := WriteFrom(Content(list, disk), offset, data, 0, blockSize - at, blockSize);
      while left > 0
        invariant 0 <= at <= blockSize && 0 <= left && done + left == |data| && (0 < left ==> start == done)
        invariant Writing(list, disk0, disk, blockSize, i, at, offset, data, done, goal)
        decreases left, at
      {
        var bytes;
        if at + left >= blockSize {
          bytes := blockSize - at;
          PutNext(list, i, at, data, offset, start, bytes, goal, disk0);
          left := left - bytes;
          start := start + bytes;
        } else {
          bytes := left;
          PutNext(list, i, at, data, offset, start, bytes, goal, disk0);
          left := 0;
        }
        done := done + bytes;
        i := i + 1;
        at := 0;
      }
    }

    /** One turn of the loop. */
    method PutNext(list: seq<nat>, i: nat, at: nat, data: seq<byte>, ghost offset: nat, start: nat, bytes: nat,
                   ghost goal: seq<byte>, ghost disk0: seq<seq<byte>>)
      requires Writing(list, disk0, disk, blockSize, i, at, offset, data, start, goal) && start < |data|
      requires OnDisk(list, |disk|) && Distinct(list) && bytes == Piece(|data| - start, blockSize - at)
      modifies this`disk
      ensures Writing(list, disk0, disk, blockSize, i + 1, 0, offset, data, start + bytes, goal)
    {
      PutChunk(list, i, at, data, start, bytes);
      WriteStep(Content(list, old(disk)), Content(list, disk), blockSize, offset, data, start, at, bytes,
                At(i, blockSize) + at, goal);
      KeptTwice(list, disk0, old(disk), disk);
    }

    /** `bytes` bytes of the buffer go to block number `i` of the list. */
    method PutChunk(list: seq<nat>, i: nat, at: nat, data: seq<byte>, start: nat, bytes: nat)
      requires 0 < blockSize && BlocksSized(disk, blockSize) && OnDisk(list, |disk|) && Distinct(list)
      requires start + bytes <= |data| && at + bytes <= blockSize
      requires At(i, blockSize) + at < |Content(list, disk)|
      modifies this`disk
      ensures BlocksSized(disk, blockSize) && KeptOutside(list, old(disk), disk)
      ensures At(i, blockSize) + at + bytes <= |Content(list, old(disk))|
      ensures Content(list, disk)
              == Splice(Content(list, old(disk)), At(i, blockSize) + at, Cut(data[start..start + bytes]))
    {
      Reaches(list, disk, blockSize, i, At(i, blockSize) + at);
      var chunk := Cut(data[start..start + bytes]);
      var block := Splice(disk[list[i]], at, chunk);
      StoredDisk(list, disk, blockSize, i, at, chunk);
      disk := disk[list[i] := block];
    }

    // -------------------------------------------------------------- operations in a row

    /** What was written is read back if and only if it holds no NUL byte. */
    method ReadAfterWrite(path: string, offset: nat, data: seq<byte>) returns (ok: bool, reply: ReadReply)
      requires Valid() && path in files
      modifies this`files, this`disk, this`counted, bitmap.bytes
      ensures Valid()
      ensures ok <==> CeilDiv(offset + |data|, blockSize) - |old(files)[path]| <= BM.Free(old(bitmap.Used()))
      ensures ok ==> (reply == Data(data) <==> NoNul(data))
    {
      reply := NoData;
      ok := WriteData(path, offset, data);
      if ok {
        reply := ReadData(path, offset, |data|);
        Listed(bitmap.Used(), files, this.reserved, path);
        ContentSize(files[path], disk, blockSize);
        AtIsProduct(|files[path]|, blockSize);
        WrittenSlice(Content(files[path], disk), offset, Stored(data, FirstRoom(offset, blockSize), blockSize));
        RoundTrip(data, FirstRoom(offset, blockSize), blockSize);
      }
    }

    lemma WrittenSlice(c: seq<byte>, offset: nat, d: seq<byte>)
      requires offset + |d| <= |c| && forall k :: 0 <= k < |d| ==> d[k] == c[offset + k]
      ensures c[offset..offset + |d|] == d
    {
    }

    /**
     A file is refused although there is room: the count was taken when the disk was full, and a deletion does
     not renew it.
     */
    method RefusedAfterDelete(kept: string, deleted: string, path: string) returns (ok: bool)
      requires Valid() && kept in files && deleted in files && kept != deleted && path !in files
      requires BM.Free(bitmap.Used()) == 0
      modifies this`files, this`disk, this`counted, bitmap.bytes
      ensures !ok && path !in files && 0 < BM.Free(bitmap.Used())
    {
      Listed(bitmap.Used(), files, reserved, deleted);
      var counting := Reserve(kept, 0);
      assert counted == 0 && files == old(files);
      FreedSome(bitmap.Used(), files[deleted]);
      var removed := Delete(deleted, true);
      ok := Create(path);
    }

    lemma FreedSome(used: seq<bool>, list: seq<nat>)
      requires list != [] && list[0] < |used|
      ensures 0 < BM.Free(BM.SetAll(used, list, false))
    {
      BM.SetAllAt(used, list, false, list[0]);
      BM.FreeSome(BM.SetAll(used, list, false));
    }
  }
}
