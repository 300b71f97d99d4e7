/**
 * The contiguous script memory of the A1 shell: a code store of MEM_SIZE
 * line slots and a first-fit allocator over a list of free blocks kept in
 * ascending order of start index.
 */
module ContiguousMemory {
  import opened Wrappers

  const MEM_SIZE: nat := 1000

  /** One free block: `length` free slots starting at `start`. */
  datatype Block = Block(start: int, length: int) {
    function End(): int { start + length }
  }

  /** The ranges [s1, s1+l1) and [s2, s2+l2) share no slot. */
  predicate Apart(s1: int, l1: int, s2: int, l2: int) {
    s1 + l1 <= s2 || s2 + l2 <= s1
  }

  /**
   * The invariant of the free list: every block lies inside the store, and
   * each block ends before the next one starts, so the list is sorted by start.
   */
  ghost predicate WellFormed(free: seq<Block>) {
    && (forall i :: 0 <= i < |free| ==> 0 <= free[i].start && 0 <= free[i].length && free[i].End() <= MEM_SIZE)
    && (forall i, j :: 0 <= i < j < |free| ==> free[i].End() <= free[j].start)
  }

  /** The free list is ordered by start. */
  ghost predicate Sorted(free: seq<Block>) {
    forall i, j :: 0 <= i < j < |free| ==> free[i].start <= free[j].start
  }

  /** No free block shares a slot with the range [s, s+len). */
  ghost predicate AvoidsRange(free: seq<Block>, s: int, len: int) {
    forall i :: 0 <= i < |free| ==> Apart(free[i].start, free[i].length, s, len)
  }

  /** Total number of free slots recorded in the list. */
  function TotalFree(free: seq<Block>): int {
    if free == [] then 0 else TotalFree(free[..|free| - 1]) + free[|free| - 1].length
  }

  /** Index of the first block (in list order) with room for n slots, or |free|. */
  function FirstFit(free: seq<Block>, n: nat): (k: nat)
    ensures k <= |free|
    ensures k < |free| ==> n <= free[k].length
    ensures forall i :: 0 <= i < k ==> free[i].length < n
  {
    if free == [] then 0
    else if n <= free[0].length then 0
    else 1 + FirstFit(free[1..], n)
  }

  /**
   * allocateMemoryScript: the start of the first block that fits and the new
   * free list, or -1 and the unchanged list. The chosen block gives up its
   * first n slots; if that empties it, it is unlinked, except when it is the
   * head and has no successor.
   */
  function Allocate(free: seq<Block>, n: nat): (int, seq<Block>) {
    var k := FirstFit(free, n);
    if k == |free| then (-1, free)
    else
      var b := free[k];
      var shrunk := Block(b.start + n, b.length - n);
      if shrunk.length == 0 && !(k == 0 && |free| == 1) then
        (b.start, free[..k] + free[k + 1..])
      else
        (b.start, free[k := shrunk])
  }

  /** Index of the first block whose start exceeds s, or |free|. */
  function FirstAfter(free: seq<Block>, s: int): (k: nat)
    ensures k <= |free|
    ensures k < |free| ==> s < free[k].start
    ensures forall i :: 0 <= i < k ==> free[i].start <= s
  {
    if free == [] then 0
    else if s < free[0].start then 0
    else 1 + FirstAfter(free[1..], s)
  }

  /** The freed range joined to block k when it ends exactly at its start, otherwise linked in just before it. */
  function Grow(free: seq<Block>, k: nat, s: int, len: nat): (mid: seq<Block>)
    requires k < |free|
    ensures k < |mid|
  {
    if s + len == free[k].start then free[k := Block(s, free[k].length + len)]
    else free[..k] + [Block(s, len)] + free[k..]
  }

  /** Block k folded into block k-1 when the two are adjacent. */
  function MergeBack(mid: seq<Block>, k: nat): seq<Block>
    requires k < |mid|
  {
    if k > 0 && mid[k - 1].End() == mid[k].start then
      mid[..k - 1] + [Block(mid[k - 1].start, mid[k - 1].length + mid[k].length)] + mid[k + 1..]
    else
      mid
  }

  /**
   * addMemoryAvailability: at the first block starting after s, grow that
   * block downwards or link a new block before it, then fold the block at
   * that position into its predecessor when adjacent. With no block starting
   * after s, the list is left as it is.
   */
  function AddAvail(free: seq<Block>, s: int, len: nat): seq<Block> {
    var k := FirstAfter(free, s);
    if k == |free| then free else MergeBack(Grow(free, k, s, len), k)
  }

  // ----- Totals -----

  lemma {:induction false} TotalFreeAppend(a: seq<Block>, b: seq<Block>)
    ensures TotalFree(a + b) == TotalFree(a) + TotalFree(b)
  {
    if b == [] {
      assert a + b == a;
    } else {
      assert (a + b)[..|a + b| - 1] == a + b[..|b| - 1];
      TotalFreeAppend(a, b[..|b| - 1]);
    }
  }

  lemma TotalFreeSplit(free: seq<Block>, k: nat)
    requires k < |free|
    ensures TotalFree(free) == TotalFree(free[..k]) + free[k].length + TotalFree(free[k + 1..])
  {
    assert free == free[..k] + [free[k]] + free[k + 1..];
    TotalFreeAppend(free[..k] + [free[k]], free[k + 1..]);
    TotalFreeAppend(free[..k], [free[k]]);
    assert [free[k]][..0] == [];
  }

  // ----- Properties of allocation -----

  lemma WellFormedIsSorted(free: seq<Block>)
    requires WellFormed(free)
    ensures Sorted(free)
  {
  }

  /**
   * Allocation fails exactly when no block is large enough; otherwise it
   * returns the start of the first block, in list order, that fits.
   */
  lemma AllocateIsFirstFit(free: seq<Block>, n: nat)
    requires WellFormed(free)
    ensures Allocate(free, n).0 == -1 <==> forall i :: 0 <= i < |free| ==> free[i].length < n
    ensures Allocate(free, n).0 != -1 ==>
      exists k :: 0 <= k < |free| && Allocate(free, n).0 == free[k].start && n <= free[k].length &&
        forall i :: 0 <= i < k ==> free[i].length < n
  {
    var k := FirstFit(free, n);
    if k < |free| {
      assert Allocate(free, n).0 == free[k].start;
    }
  }

  /** A successful allocation removes exactly n slots from the free total. */
  lemma AllocateTotal(free: seq<Block>, n: nat)
    requires Allocate(free, n).0 != -1
    ensures TotalFree(Allocate(free, n).1) == TotalFree(free) - n
  {
    var k := FirstFit(free, n);
    var b := free[k];
    var shrunk := Block(b.start + n, b.length - n);
    TotalFreeSplit(free, k);
    if shrunk.length == 0 && !(k == 0 && |free| == 1) {
      TotalFreeAppend(free[..k], free[k + 1..]);
    } else {
      var after := free[k := shrunk];
      TotalFreeSplit(after, k);
      assert after[..k] == free[..k];
      assert after[k + 1..] == free[k + 1..];
    }
  }

  /** Allocation, successful or not, keeps the list well formed. */
  lemma AllocateStaysWellFormed(free: seq<Block>, n: nat)
    requires WellFormed(free)
    ensures WellFormed(Allocate(free, n).1)
  {
    if Allocate(free, n).0 != -1 {
      AllocateKeepsApart(free, n);
    }
  }

  /**
   * A successful allocation keeps the list well formed; the allocated range
   * lies inside the store, no free block overlaps it afterwards, and any range
   * that was clear of the free list stays clear of it and of the allocated range.
   */
  lemma AllocateKeepsApart(free: seq<Block>, n: nat)
    requires WellFormed(free)
    requires Allocate(free, n).0 != -1
    ensures WellFormed(Allocate(free, n).1)
    ensures 0 <= Allocate(free, n).0 && Allocate(free, n).0 + n <= MEM_SIZE
    ensures AvoidsRange(Allocate(free, n).1, Allocate(free, n).0, n)
    ensures forall t, tl :: AvoidsRange(free, t, tl) && tl >= 0 ==>
      AvoidsRange(Allocate(free, n).1, t, tl) && Apart(Allocate(free, n).0, n, t, tl)
  {
    var k := FirstFit(free, n);
    var b := free[k];
    var r := Allocate(free, n).1;
    if b.length - n == 0 && !(k == 0 && |free| == 1) {
      UnlinkKeepsApart(free, k, r);
    } else {
      ShrinkKeepsApart(free, k, n, r);
    }
    forall t, tl | AvoidsRange(free, t, tl) && tl >= 0
      ensures Apart(b.start, n, t, tl)
    {
      assert Apart(b.start, b.length, t, tl);
    }
  }

  /** Unlinking block k keeps the list well formed, and clear of block k and of every range already clear. */
  lemma UnlinkKeepsApart(free: seq<Block>, k: nat, r: seq<Block>)
    requires WellFormed(free) && k < |free| && r == free[..k] + free[k + 1..]
    ensures WellFormed(r) && AvoidsRange(r, free[k].start, free[k].length)
    ensures forall t, tl :: AvoidsRange(free, t, tl) ==> AvoidsRange(r, t, tl)
  {
    forall i | 0 <= i < |r|
      ensures r[i] == free[Skip(i, k)]
    {
      if i < k { assert r[i] == free[..k][i]; } else { assert r[i] == free[k + 1..][i - k]; }
    }
    forall i, j | 0 <= i < j < |r|
      ensures r[i].End() <= r[j].start
    {
      assert Skip(i, k) < Skip(j, k);
    }
    forall i | 0 <= i < |r|
      ensures Apart(r[i].start, r[i].length, free[k].start, free[k].length)
    {
      assert Skip(i, k) != k;
    }
  }

  /** Index i of a list with entry k unlinked, as an index of the list before. */
  function Skip(i: nat, k: nat): (j: nat)
    ensures j != k && (i < j <==> k <= i)
  {
    if i < k then i else i + 1
  }

  /** Block k giving up its first n slots keeps the list well formed and clear of those slots. */
  lemma ShrinkKeepsApart(free: seq<Block>, k: nat, n: nat, r: seq<Block>)
    requires WellFormed(free) && k < |free| && n <= free[k].length
    requires r == free[k := Block(free[k].start + n, free[k].length - n)]
    ensures WellFormed(r) && AvoidsRange(r, free[k].start, n)
    ensures forall t, tl :: AvoidsRange(free, t, tl) && tl >= 0 ==> AvoidsRange(r, t, tl)
  {
    forall t, tl | AvoidsRange(free, t, tl) && tl >= 0
      ensures AvoidsRange(r, t, tl)
    {
      assert Apart(free[k].start, free[k].length, t, tl);
    }
  }

  // ----- Properties of freeing -----

  lemma GrowTotal(free: seq<Block>, k: nat, s: int, len: nat)
    requires k < |free|
    ensures TotalFree(Grow(free, k, s, len)) == TotalFree(free) + len
  {
    var mid := Grow(free, k, s, len);
    TotalFreeSplit(free, k);
    TotalFreeSplit(mid, k);
    if s + len == free[k].start {
      assert mid[..k] == free[..k] && mid[k + 1..] == free[k + 1..];
    } else {
      assert mid[..k] == free[..k] && mid[k + 1..] == free[k..];
      TotalFreeSplit(free[k..], 0);
      assert free[k..][1..] == free[k + 1..];
      assert free[k..][..0] == [];
    }
  }

  lemma MergeBackTotal(mid: seq<Block>, k: nat)
    requires k < |mid|
    ensures TotalFree(MergeBack(mid, k)) == TotalFree(mid)
  {
    if k > 0 && mid[k - 1].End() == mid[k].start {
      var res := MergeBack(mid, k);
      TotalFreeSplit(mid, k);
      TotalFreeSplit(mid[..k], k - 1);
      assert mid[..k][..k - 1] == mid[..k - 1];
      assert mid[..k][k..] == [];
      TotalFreeSplit(res, k - 1);
      assert res[..k - 1] == mid[..k - 1] && res[k..] == mid[k + 1..];
    }
  }

  /** The freed range is added to the free total when some block starts after it, and lost otherwise. */
  lemma AddAvailTotal(free: seq<Block>, s: int, len: nat)
    ensures FirstAfter(free, s) < |free| ==> TotalFree(AddAvail(free, s, len)) == TotalFree(free) + len
    ensures FirstAfter(free, s) == |free| ==> AddAvail(free, s, len) == free
  {
    var k := FirstAfter(free, s);
    if k < |free| {
      GrowTotal(free, k, s, len);
      MergeBackTotal(Grow(free, k, s, len), k);
    }
  }

  lemma GrowKeepsApart(free: seq<Block>, k: nat, s: int, len: nat)
    requires WellFormed(free) && k < |free|
    requires 0 <= s && s + len <= free[k].start
    requires k > 0 ==> free[k - 1].End() <= s
    ensures WellFormed(Grow(free, k, s, len))
    ensures Grow(free, k, s, len)[k].start == s && s + len <= Grow(free, k, s, len)[k].End()
    ensures forall t, tl :: AvoidsRange(free, t, tl) && Apart(s, len, t, tl) && tl >= 1 ==>
      AvoidsRange(Grow(free, k, s, len), t, tl)
  {
    if s + len == free[k].start {
      GrowJoinKeepsApart(free, k, s, len);
    } else {
      GrowLinkKeepsApart(free, k, s, len);
    }
  }

  lemma GrowJoinKeepsApart(free: seq<Block>, k: nat, s: int, len: nat)
    requires WellFormed(free) && k < |free|
    requires 0 <= s && s + len == free[k].start
    requires k > 0 ==> free[k - 1].End() <= s
    ensures WellFormed(Grow(free, k, s, len))
    ensures forall t, tl :: AvoidsRange(free, t, tl) && Apart(s, len, t, tl) && tl >= 1 ==>
      AvoidsRange(Grow(free, k, s, len), t, tl)
  {
    var mid := Grow(free, k, s, len);
    assert mid == free[k := Block(s, free[k].length + len)];
    forall i, j | 0 <= i < j < |mid|
      ensures mid[i].End() <= mid[j].start
    {
      if j == k {
        assert i <= k - 1;
        assert free[i].End() <= free[k - 1].End();
      }
    }
    forall t, tl | AvoidsRange(free, t, tl) && Apart(s, len, t, tl) && tl >= 1
      ensures AvoidsRange(mid, t, tl)
    {
      assert Apart(free[k].start, free[k].length, t, tl);
    }
  }

  lemma GrowLinkKeepsApart(free: seq<Block>, k: nat, s: int, len: nat)
    requires WellFormed(free) && k < |free|
    requires 0 <= s && s + len < free[k].start
    requires k > 0 ==> free[k - 1].End() <= s
    ensures WellFormed(Grow(free, k, s, len))
    ensures forall t, tl :: AvoidsRange(free, t, tl) && Apart(s, len, t, tl) ==>
      AvoidsRange(Grow(free, k, s, len), t, tl)
  {
    var mid := Grow(free, k, s, len);
    GrowLinkAt(free, k, s, len);
    LinkedWellFormed(free, k, s, len, mid);
    forall t, tl | AvoidsRange(free, t, tl) && Apart(s, len, t, tl)
      ensures AvoidsRange(mid, t, tl)
    {
      forall i | 0 <= i < |mid|
        ensures Apart(mid[i].start, mid[i].length, t, tl)
      {
        if i < k { assert mid[i] == free[i]; } else if i > k { assert mid[i] == free[i - 1]; }
      }
    }
  }

  /** A list with block (s, len) linked in between blocks k-1 and k is well formed. */
  lemma LinkedWellFormed(free: seq<Block>, k: nat, s: int, len: nat, mid: seq<Block>)
    requires WellFormed(free) && k < |free|
    requires 0 <= s && s + len < free[k].start
    requires k > 0 ==> free[k - 1].End() <= s
    requires |mid| == |free| + 1
    requires forall i :: 0 <= i < |free| + 1 ==>
      mid[i] == (if i < k then free[i] else if i == k then Block(s, len) else free[i - 1])
    ensures WellFormed(mid)
  {
    forall i | 0 <= i < |mid|
      ensures 0 <= mid[i].start && 0 <= mid[i].length && mid[i].End() <= MEM_SIZE
    {
      if i < k {
        assert mid[i] == free[i];
      } else if i == k {
        assert mid[i] == Block(s, len);
        assert free[k].End() <= MEM_SIZE;
      } else {
        assert mid[i] == free[i - 1];
      }
    }
    forall i, j | 0 <= i < j < |mid|
      ensures mid[i].End() <= mid[j].start
    {
      var bi, bj := mid[i], mid[j];
      if j == k {
        assert bi == free[i] && bj == Block(s, len);
        assert free[i].End() <= free[k - 1].End();
      } else if i == k {
        assert bi == Block(s, len) && bj == free[j - 1];
        assert free[k].start <= free[j - 1].start;
      } else if j < k {
        assert bi == free[i] && bj == free[j];
      } else if i < k {
        assert bi == free[i] && bj == free[j - 1];
      } else {
        assert bi == free[i - 1] && bj == free[j - 1];
      }
    }
  }

  /** The blocks of a list with a new block linked in at position k. */
  lemma GrowLinkAt(free: seq<Block>, k: nat, s: int, len: nat)
    requires k < |free| && s + len != free[k].start
    ensures |Grow(free, k, s, len)| == |free| + 1
    ensures forall i {:trigger Grow(free, k, s, len)[i]} :: 0 <= i < |free| + 1 ==>
      Grow(free, k, s, len)[i] == (if i < k then free[i] else if i == k then Block(s, len) else free[i - 1])
  {
  }

  lemma MergeBackKeepsApart(mid: seq<Block>, k: nat)
    requires WellFormed(mid) && k < |mid|
    ensures WellFormed(MergeBack(mid, k))
    ensures forall t, tl :: AvoidsRange(mid, t, tl) && tl >= 1 ==> AvoidsRange(MergeBack(mid, k), t, tl)
  {
    if k > 0 && mid[k - 1].End() == mid[k].start {
      var res := MergeBack(mid, k);
      MergedAt(mid, k, res);
      MergedWellFormed(mid, k, res);
      forall t, tl | AvoidsRange(mid, t, tl) && tl >= 1
        ensures AvoidsRange(res, t, tl)
      {
        MergedAvoids(mid, k, res, t, tl);
      }
    }
  }

  /** The folded list of MergeBack is well formed. */
  lemma MergedWellFormed(mid: seq<Block>, k: nat, res: seq<Block>)
    requires WellFormed(mid) && 0 < k < |mid| && mid[k - 1].End() == mid[k].start && |res| == |mid| - 1
    requires res[k - 1] == Block(mid[k - 1].start, mid[k - 1].length + mid[k].length)
    requires forall i :: 0 <= i < |res| && i != k - 1 ==> res[i] == mid[Skip(i, k)]
    ensures WellFormed(res)
  {
    forall i, j | 0 <= i < j < |res|
      ensures res[i].End() <= res[j].start
    {
      if j == k - 1 {
        assert mid[i].End() <= mid[k - 1].start;
      } else if i == k - 1 {
        assert mid[k].End() <= mid[j + 1].start;
      } else {
        assert mid[Skip(i, k)].End() <= mid[Skip(j, k)].start;
      }
    }
  }

  /** A range clear of blocks k-1 and k is clear of their fold. */
  lemma MergedAvoids(mid: seq<Block>, k: nat, res: seq<Block>, t: int, tl: int)
    requires 0 < k < |mid| && mid[k - 1].End() == mid[k].start && |res| == |mid| - 1
    requires res[k - 1] == Block(mid[k - 1].start, mid[k - 1].length + mid[k].length)
    requires forall i :: 0 <= i < |res| && i != k - 1 ==> res[i] == mid[Skip(i, k)]
    requires AvoidsRange(mid, t, tl) && tl >= 1
    ensures AvoidsRange(res, t, tl)
  {
    assert Apart(mid[k - 1].start, mid[k - 1].length, t, tl);
    assert Apart(mid[k].start, mid[k].length, t, tl);
    forall i | 0 <= i < |res| && i != k - 1
      ensures Apart(res[i].start, res[i].length, t, tl)
    {
      assert Apart(mid[Skip(i, k)].start, mid[Skip(i, k)].length, t, tl);
    }
  }

  /** The blocks of a list with blocks k-1 and k folded into one. */
  lemma MergedAt(mid: seq<Block>, k: nat, res: seq<Block>)
    requires 0 < k < |mid| && mid[k - 1].End() == mid[k].start && res == MergeBack(mid, k)
    ensures |res| == |mid| - 1
    ensures res[k - 1] == Block(mid[k - 1].start, mid[k - 1].length + mid[k].length)
    ensures forall i :: 0 <= i < |res| && i != k - 1 ==> res[i] == mid[Skip(i, k)]
  {
    forall i | 0 <= i < |res| && i != k - 1
      ensures res[i] == mid[Skip(i, k)]
    {
      if i < k - 1 { assert res[i] == mid[..k - 1][i]; } else { assert res[i] == mid[k + 1..][i - k]; }
    }
  }

  /**
   * Freeing a range that is clear of the free list keeps the list well
   * formed (so sorted by start), and a range clear of both the list and the
   * freed range stays clear of the new list.
   */
  lemma AddAvailKeepsApart(free: seq<Block>, s: int, len: nat)
    requires WellFormed(free)
    requires 0 <= s && s + len <= MEM_SIZE && len >= 1
    requires AvoidsRange(free, s, len)
    ensures WellFormed(AddAvail(free, s, len))
    ensures forall t, tl :: AvoidsRange(free, t, tl) && Apart(s, len, t, tl) && tl >= 1 ==>
      AvoidsRange(AddAvail(free, s, len), t, tl)
  {
    var k := FirstAfter(free, s);
    if k < |free| {
      assert k > 0 ==> free[k - 1].End() <= s by {
        if k > 0 { assert Apart(free[k - 1].start, free[k - 1].length, s, len); }
      }
      assert s + len <= free[k].start by {
        assert Apart(free[k].start, free[k].length, s, len);
      }
      GrowKeepsApart(free, k, s, len);
      MergeBackKeepsApart(Grow(free, k, s, len), k);
    }
  }

  /** After freeing into a list with a block beyond the range, one free block covers the whole range. */
  lemma AddAvailCoversRange(free: seq<Block>, s: int, len: nat)
    requires WellFormed(free) && 0 <= s && s + len <= MEM_SIZE && len >= 1 && AvoidsRange(free, s, len)
    requires FirstAfter(free, s) < |free|
    ensures exists i :: (0 <= i < |AddAvail(free, s, len)| &&
      AddAvail(free, s, len)[i].start <= s && s + len <= AddAvail(free, s, len)[i].End())
  {
    var k := FirstAfter(free, s);
    assert s + len <= free[k].start by {
      assert Apart(free[k].start, free[k].length, s, len);
    }
    assert k > 0 ==> free[k - 1].End() <= s by {
      if k > 0 { assert Apart(free[k - 1].start, free[k - 1].length, s, len); }
    }
    GrowKeepsApart(free, k, s, len);
    var mid := Grow(free, k, s, len);
    var res := MergeBack(mid, k);
    assert res == AddAvail(free, s, len);
    if k > 0 && mid[k - 1].End() == mid[k].start {
      assert res[k - 1].start <= s && s + len <= res[k - 1].End();
    } else {
      assert res[k] == mid[k];
    }
  }

  /**
   * When no free block starts after the freed range, the range is lost: a
   * store whose only free block is [0, 3) frees [995, 1000) and the free
   * total stays 3.
   */
  lemma AddAvailDropsTrailingRange()
    ensures AddAvail([Block(0, 3)], 995, 5) == [Block(0, 3)]
    ensures TotalFree(AddAvail([Block(0, 3)], 995, 5)) == 3
  {
    assert FirstAfter([Block(0, 3)], 995) == 1 by {
      assert [Block(0, 3)][1..] == [];
    }
    assert [Block(0, 3)][..0] == [];
  }

  /** The code store and the free list; locks are left out. */
  class ScriptsMemory {
    const code: array<Option<string>>
    var free: seq<Block>

    ghost predicate Valid()
      reads this
    {
      code.Length == MEM_SIZE && WellFormed(free)
    }

    /** scripts_memory_init: every slot NULL, one free block covering the store. */
    constructor ()
      ensures Valid() && fresh(code)
      ensures forall i :: 0 <= i < code.Length ==> code[i] == None
      ensures free == [Block(0, MEM_SIZE)]
      ensures TotalFree(free) == MEM_SIZE
    {
      code := new Option<string>[MEM_SIZE](_ => None);
      free := [Block(0, MEM_SIZE)];
      assert [Block(0, MEM_SIZE)][..0] == [];
    }

    /** allocateMemoryScript: walk the list for the first block that fits. */
    method AllocateMemoryScript(scriptLength: nat) returns (tmp: int)
      requires Valid()
      modifies this
      ensures Valid()
      ensures (tmp, free) == Allocate(old(free), scriptLength)
    {
      tmp := -1;
      var i := 0;
      while i < |free|
        invariant 0 <= i <= |free| && free == old(free)
        invariant forall j :: 0 <= j < i ==> free[j].length < scriptLength
      {
        if scriptLength <= free[i].length {
          assert FirstFit(free, scriptLength) == i;
          AllocateStaysWellFormed(free, scriptLength);
          tmp := free[i].start;
          var shrunk := Block(free[i].start + scriptLength, free[i].length - scriptLength);
          if shrunk.length == 0 {
            if i == 0 && |free| == 1 {
              free := free[i := shrunk];
            } else {
              free := free[..i] + free[i + 1..];
            }
          } else {
            free := free[i := shrunk];
          }
          return;
        }
        i := i + 1;
      }
    }

    /** addMemoryAvailability: walk to the first block starting after the freed range. */
    method AddMemoryAvailability(memoryStartIdx: int, lengthCode: nat)
      requires Valid()
      requires 0 <= memoryStartIdx && memoryStartIdx + lengthCode <= MEM_SIZE && lengthCode >= 1
      requires AvoidsRange(free, memoryStartIdx, lengthCode)
      modifies this
      ensures Valid()
      ensures free == AddAvail(old(free), memoryStartIdx, lengthCode)
    {
      assert WellFormed(AddAvail(free, memoryStartIdx, lengthCode)) by {
        AddAvailKeepsApart(free, memoryStartIdx, lengthCode);
      }
      var i := 0;
      while i < |free|
        invariant 0 <= i <= |free| && free == old(free)
        invariant forall j :: 0 <= j < i ==> free[j].start <= memoryStartIdx
      {
        if memoryStartIdx < free[i].start {
          assert FirstAfter(free, memoryStartIdx) == i;
          LinkFreed(i, memoryStartIdx, lengthCode);
          return;
        }
        i := i + 1;
      }
      assert FirstAfter(free, memoryStartIdx) == |free|;
    }

    /** The relinking of addMemoryAvailability once block i is the first to start after the freed range. */
    method LinkFreed(i: nat, memoryStartIdx: int, lengthCode: nat)
      requires i < |free| && i == FirstAfter(free, memoryStartIdx)
      modifies this
      ensures free == AddAvail(old(free), memoryStartIdx, lengthCode)
    {
      // merge into the block after, or link a new block before it
      var mid: seq<Block>;
      if memoryStartIdx + lengthCode == free[i].start {
        mid := free[i := Block(memoryStartIdx, free[i].length + lengthCode)];
      } else {
        mid := free[..i] + [Block(memoryStartIdx, lengthCode)] + free[i..];
      }
      assert mid == Grow(free, i, memoryStartIdx, lengthCode);
      // merge with the block before when adjacent
      if i > 0 && mid[i - 1].End() == mid[i].start {
        free := mid[..i - 1] + [Block(mid[i - 1].start, mid[i - 1].length + mid[i].length)] + mid[i + 1..];
      } else {
        free := mid;
      }
      assert free == MergeBack(mid, i);
    }

    /** fetchInstruction: the contents of one slot. */
    method FetchInstruction(instructionAddress: nat) returns (r: Option<string>)
      requires Valid() && instructionAddress < MEM_SIZE
      ensures r == code[instructionAddress]
    {
      r := code[instructionAddress];
    }

    /** updateInstruction: overwrite one slot, leaving every other slot as it was. */
    method UpdateInstruction(instructionAddress: nat, newInstruction: Option<string>)
      requires Valid() && instructionAddress < MEM_SIZE
      modifies code
      ensures code[instructionAddress] == newInstruction
      ensures forall i :: 0 <= i < code.Length && i != instructionAddress ==> code[i] == old(code[i])
    {
      code[instructionAddress] := newInstruction;
    }
  }

  /** updateInstruction(i, x) followed by fetchInstruction(i) gives x; other slots are untouched. */
  method UpdateThenFetch(m: ScriptsMemory, i: nat, x: string) returns (r: Option<string>)
    requires m.Valid() && i < MEM_SIZE
    modifies m.code
    ensures r == Some(x)
    ensures forall j :: 0 <= j < m.code.Length && j != i ==> m.code[j] == old(m.code[j])
  {
    m.UpdateInstruction(i, Some(x));
    r := m.FetchInstruction(i);
  }
}
