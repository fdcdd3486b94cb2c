/**
 Two ways of numbering a new heap page of one process: the kernel goes one past the largest number it
 knows, the memory server counts the pages the process owns. Each side numbers on its own.
 */
module HeapNumbers {
  import opened Rounding
  import opened HeapBlocks
  import opened HeapTable

  /** The numbers of the heap pages the kernel knows for `pid`. */
  ghost function Numbers(ps: seq<HeapPage>, pid: int): set<int> {
    set i | 0 <= i < |ps| && ps[i].pid == pid :: ps[i].number
  }

  /** `n` is where a scan for the largest number ends that starts at `base`. */
  ghost predicate IsNext(known: set<int>, base: int, n: int) {
    && base <= n && (forall k :: k in known ==> k < n)
    && (n == base || n - 1 in known)
  }

  /** The kernel's scan computes just that. */
  lemma ScanIsNext(ps: seq<HeapPage>, pid: int, base: int)
    ensures IsNext(Numbers(ps, pid), base, NextNumber(ps, pid, base))
  {
    NextNumberFresh(ps, pid, base);
  }

  /** Kernel and memory server know the same pages: `base` initial ones and the heap pages above them. */
  ghost predicate Agree(known: set<int>, owned: set<int>, base: nat) {
    (forall k :: k in known ==> base <= k) && owned == Range(0, base) + known
  }

  /**
   The memory server never numbers past the kernel, and their numbers agree exactly when no number has been
   skipped.
   */
  lemma SameNumber(known: set<int>, owned: set<int>, base: nat, n: int)
    requires Agree(known, owned, base) && IsNext(known, base, n)
    ensures |owned| <= n
    ensures |owned| == n <==> known == Range(base, n)
  {
    RangeSize(0, base);
    RangeSize(base, n);
    assert owned - known == Range(0, base);
    assert |owned| == |owned - known| + |known| by {
      assert owned == (owned - known) + known;
    }
    assert known <= Range(base, n);
    if known != Range(base, n) {
      Smaller(known, Range(base, n));
    }
  }

  lemma Smaller(a: set<int>, b: set<int>)
    requires a < b
    ensures |a| < |b|
  {
    assert |b| == |b - a| + |a| by { assert b == (b - a) + a; }
    assert b - a == {} ==> b == a;
  }

  /** With a gap below its largest number, a process can be granted a number it already has. */
  lemma GapDuplicates(base: nat)
    ensures Agree({base + 1}, Range(0, base) + {base + 1}, base)
    ensures IsNext({base + 1}, base, base + 2)
    ensures |Range(0, base) + {base + 1}| == base + 1 && base + 1 in Range(0, base) + {base + 1}
  {
    RangeSize(0, base);
  }

  // ---------------------------------------------------------------- how the known numbers change

  lemma NumbersSame(ps: seq<HeapPage>, t: seq<HeapPage>, pid: int)
    requires |t| == |ps| && forall i :: 0 <= i < |ps| ==> t[i].pid == ps[i].pid && t[i].number == ps[i].number
    ensures Numbers(t, pid) == Numbers(ps, pid)
  {
    assert forall i :: 0 <= i < |ps| && ps[i].pid == pid ==> t[i].number in Numbers(t, pid);
  }

  /** Serving a request from a page that is there changes no numbers. */
  lemma NumbersServed(ps: seq<HeapPage>, pid: int, bytes: int, q: int)
    requires FirstPage(ps, pid, bytes) < |ps|
    ensures Numbers(Served(ps, pid, bytes), q) == Numbers(ps, q)
  {
    ServedPages(ps, pid, bytes);
    NumbersSame(ps, Served(ps, pid, bytes), q);
  }

  lemma NumbersGrown(ps: seq<HeapPage>, page: HeapPage, q: int)
    ensures Numbers(ps + [page], q) == Numbers(ps, q) + if q == page.pid then {page.number} else {}
  {
    var t := ps + [page];
    assert forall i :: 0 <= i < |ps| ==> t[i] == ps[i];
    assert t[|ps|] == page;
  }

  /** A release takes the number of its page away if the page is offered back and memory takes it. */
  predicate OffersPage(ps: seq<HeapPage>, pid: int, number: int, offset: int, accepted: nat) {
    Frees(ps, pid, number, offset) && 0 < accepted &&
    |SettledPartly(Marked(ps, pid, number, offset)[PageOf(ps, pid, number)].blocks, accepted - 1)| == 1
  }

  lemma NumbersReleased(ps: seq<HeapPage>, pid: int, number: int, offset: int, accepted: nat, released: bool, q: int)
    requires Numbered(ps) && 0 <= pid
    ensures Numbers(ReleasedTable(ps, pid, number, offset, accepted, released), q)
         == Numbers(ps, q)
          - if q == pid && OffersPage(ps, pid, number, offset, accepted) && released then {number} else {}
    ensures OffersPage(ps, pid, number, offset, accepted) ==> number in Numbers(ps, pid)
  {
    if Frees(ps, pid, number, offset) {
      var k, t := PageOf(ps, pid, number), Marked(ps, pid, number, offset);
      assert number in Numbers(ps, pid);
      NumbersSame(ps, t, q);
      if 0 < accepted {
        if OffersPage(ps, pid, number, offset, accepted) && released {
          NamesNumbered(ps, t);
          NumbersLess(t, k, q);
        } else {
          NumbersSame(t, Compacting(t, k, accepted - 1, released), q);
        }
      }
    }
  }

  lemma NumbersLess(ps: seq<HeapPage>, k: nat, q: int)
    requires Numbered(ps) && k < |ps| && 0 <= ps[k].pid
    ensures Numbers(ps[..k] + ps[k + 1..], q) == Numbers(ps, q) - if q == ps[k].pid then {ps[k].number} else {}
  {
    var t := ps[..k] + ps[k + 1..];
    forall i | 0 <= i < |ps| && i != k && ps[i].pid == q
      ensures ps[i].number in Numbers(t, q) && (q == ps[k].pid ==> ps[i].number != ps[k].number)
    {
      assert t[if i < k then i else i - 1] == ps[i];
      assert !SamePage(ps[if i < k then i else k], ps[if i < k then k else i]);
    }
    forall i | 0 <= i < |t|
      ensures t[i] == ps[if i < k then i else i + 1]
    {
    }
  }

  /** Without a gap, the scan for the largest number ends where the numbers do. */
  lemma NextIsEnd(ps: seq<HeapPage>, pid: int, base: nat, n: nat)
    requires base <= n && Numbers(ps, pid) == Range(base, n)
    ensures NextNumber(ps, pid, base) == n
  {
    var next := NextNumber(ps, pid, base);
    ScanIsNext(ps, pid, base);
    assert base < n ==> n - 1 in Range(base, n);
    assert next != base ==> next - 1 in Range(base, n);
  }
}
