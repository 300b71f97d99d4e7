/**
 * The paged script memory of the later shell: a frame store of
 * FRAME_STORE_SIZE line slots cut into frames of PAGE_SIZE slots, each frame
 * carrying the script page it holds and a least-recently-used rank.
 *
 * The scripts' page-table records (`struct scriptFrames`) are heap objects
 * shared by the frames and by PCBs; they are modelled as an arena, a map from
 * handles to records, and "NULL" as `None`.
 */
module PagedMemory {
  import opened Wrappers

  const PAGE_SIZE: nat := 3
  const PAGE_TABLE_SIZE: nat := 100
  /** The default of the FRAME_STORE_SIZE build setting. */
  const DEFAULT_FRAME_STORE_SIZE: nat := 99

  /** struct scriptFrames: a script's page table and reference counts. */
  datatype ScriptFrames = ScriptFrames(
    scriptName: string,
    lengthCode: int,
    pageTable: seq<int>,
    pcbsInUse: int,
    framesInUse: int)

  /** struct frameMetaData: the owner of a frame, the page it holds, and its LRU rank. */
  datatype FrameMeta = FrameMeta(associatedScript: Option<nat>, associatedPageNumber: int, lruIdx: int)

  // ----- LRU ranks -----

  /** The ranks are a permutation of 0 .. |fs|-1: rank 0 is the most recently used frame. */
  ghost predicate DenseRanks(fs: seq<FrameMeta>) {
    && (forall i :: 0 <= i < |fs| ==> 0 <= fs[i].lruIdx < |fs|)
    && (forall i, j :: 0 <= i < j < |fs| ==> fs[i].lruIdx != fs[j].lruIdx)
  }

  /** Only the ranks differ between fs and fs'. */
  ghost predicate SameOwners(fs: seq<FrameMeta>, fs': seq<FrameMeta>) {
    |fs| == |fs'|
    && forall i :: 0 <= i < |fs| ==>
         fs'[i].associatedScript == fs[i].associatedScript && fs'[i].associatedPageNumber == fs[i].associatedPageNumber
  }

  /** The ranks after frame f becomes the most recently used. */
  function Promote(fs: seq<FrameMeta>, f: nat): (r: seq<FrameMeta>)
    requires f < |fs|
    ensures |r| == |fs|
  {
    var oldRank := fs[f].lruIdx;
    seq(|fs|, i requires 0 <= i < |fs| =>
      if fs[i].lruIdx < oldRank then fs[i].(lruIdx := fs[i].lruIdx + 1)
      else if fs[i].lruIdx == oldRank then fs[i].(lruIdx := 0)
      else fs[i])
  }

  /**
   * updateLRURanking(f): f gets rank 0, every frame ranked more recently
   * than f moves one down, the others keep their rank; the ranks stay a
   * permutation and no owner or page changes.
   */
  lemma PromoteKeepsRanksDense(fs: seq<FrameMeta>, f: nat)
    requires f < |fs| && DenseRanks(fs)
    ensures DenseRanks(Promote(fs, f)) && SameOwners(fs, Promote(fs, f))
    ensures Promote(fs, f)[f].lruIdx == 0
    ensures forall i :: 0 <= i < |fs| && fs[i].lruIdx < fs[f].lruIdx ==> Promote(fs, f)[i].lruIdx == fs[i].lruIdx + 1
    ensures forall i :: 0 <= i < |fs| && fs[i].lruIdx > fs[f].lruIdx ==> Promote(fs, f)[i].lruIdx == fs[i].lruIdx
  {
    var r := Promote(fs, f);
    forall i, j | 0 <= i < j < |fs|
      ensures r[i].lruIdx != r[j].lruIdx
    {
      assert fs[i].lruIdx != fs[j].lruIdx;
    }
  }

  /** Promoting the frame that already has rank 0 changes nothing. */
  lemma PromoteFront(fs: seq<FrameMeta>, f: nat)
    requires f < |fs| && DenseRanks(fs) && fs[f].lruIdx == 0
    ensures Promote(fs, f) == fs
  {
    var r := Promote(fs, f);
    forall i | 0 <= i < |fs|
      ensures r[i] == fs[i]
    {
      if i != f {
        assert fs[i].lruIdx != fs[f].lruIdx || i == f;
      }
    }
  }

  /** The ranks scripts_memory_init gives: frame i gets rank n-i-1. */
  function InitialFrames(n: nat): (r: seq<FrameMeta>)
    ensures |r| == n
  {
    seq(n, i requires 0 <= i < n => FrameMeta(None, 0, n - i - 1))
  }

  lemma InitialFramesDense(n: nat)
    ensures DenseRanks(InitialFrames(n))
    ensures forall i :: 0 <= i < n ==> InitialFrames(n)[i].associatedScript == None
  {
  }

  // ----- pigeonhole: a dense ranking has a frame at every rank -----

  /** The ranks of fs, as a set. */
  ghost function RankSet(fs: seq<FrameMeta>): set<int> {
    set i | 0 <= i < |fs| :: fs[i].lruIdx
  }

  /** The ranks 0 .. n-1, as a set. */
  function Upto(n: nat): (r: set<int>)
    ensures forall x :: x in r <==> 0 <= x < n
    ensures |r| == n
  {
    if n == 0 then {} else Upto(n - 1) + {n - 1}
  }

  lemma {:induction false} DistinctRankSetSize(fs: seq<FrameMeta>)
    requires forall i, j :: 0 <= i < j < |fs| ==> fs[i].lruIdx != fs[j].lruIdx
    ensures |RankSet(fs)| == |fs|
  {
    if fs != [] {
      var init := fs[..|fs| - 1];
      DistinctRankSetSize(init);
      assert RankSet(fs) == RankSet(init) + {fs[|fs| - 1].lruIdx};
      assert fs[|fs| - 1].lruIdx !in RankSet(init);
    }
  }

  /** Given dense ranks, every rank 0 .. |fs|-1 belongs to some frame. */
  lemma DenseRanksCover(fs: seq<FrameMeta>, k: int)
    requires DenseRanks(fs) && 0 <= k < |fs|
    ensures exists i :: 0 <= i < |fs| && fs[i].lruIdx == k
  {
    var all := Upto(|fs|);
    DistinctRankSetSize(fs);
    assert RankSet(fs) <= all;
    assert |all - RankSet(fs)| == |all| - |RankSet(fs)| == 0;
    assert k in all;
    assert k in RankSet(fs);
  }

  /**
   * findLRUFrame: given dense ranks, exactly one frame holds the last rank,
   * so the scan always finds it.
   */
  lemma LruFrameUnique(fs: seq<FrameMeta>)
    requires DenseRanks(fs) && |fs| >= 1
    ensures exists i :: 0 <= i < |fs| && fs[i].lruIdx == |fs| - 1
    ensures forall i, j :: 0 <= i < |fs| && 0 <= j < |fs| && fs[i].lruIdx == |fs| - 1 && fs[j].lruIdx == |fs| - 1 ==> i == j
  {
    DenseRanksCover(fs, |fs| - 1);
  }

  // ----- address translation -----

  /**
   * virtualToPhysicalAddress: -1 when the page of `va` has no frame,
   * otherwise the slot at the same offset inside that frame.
   */
  function VirtualToPhysical(va: int, pageTable: seq<int>): (r: int)
    requires 0 <= va < PAGE_SIZE * |pageTable|
    ensures r == -1 <==> pageTable[va / PAGE_SIZE] < 0
    ensures r != -1 ==> r / PAGE_SIZE == pageTable[va / PAGE_SIZE] && r % PAGE_SIZE == va % PAGE_SIZE
    ensures r != -1 ==> r == PAGE_SIZE * pageTable[va / PAGE_SIZE] + va % PAGE_SIZE
  {
    var frameNumber := pageTable[va / PAGE_SIZE];
    if frameNumber >= 0 then frameNumber * 3 + va % PAGE_SIZE else -1
  }

  /** Address p*PAGE_SIZE+k is offset k of page p. */
  lemma PageAndOffset(p: int, k: int)
    requires 0 <= k < PAGE_SIZE
    ensures (p * PAGE_SIZE + k) / PAGE_SIZE == p && (p * PAGE_SIZE + k) % PAGE_SIZE == k
  {
  }

  // ----- frame ownership -----

  /** How many frames the script with handle s owns. */
  function Count(fs: seq<FrameMeta>, s: nat): nat {
    if fs == [] then 0
    else Count(fs[..|fs| - 1], s) + (if fs[|fs| - 1].associatedScript == Some(s) then 1 else 0)
  }

  lemma {:induction false} CountUpdate(fs: seq<FrameMeta>, i: nat, x: FrameMeta, s: nat)
    requires i < |fs|
    ensures Count(fs[i := x], s)
            == Count(fs, s) - (if fs[i].associatedScript == Some(s) then 1 else 0)
               + (if x.associatedScript == Some(s) then 1 else 0)
  {
    var n := |fs| - 1;
    if i < n {
      assert fs[i := x][..n] == fs[..n][i := x];
      CountUpdate(fs[..n], i, x, s);
    } else {
      assert fs[i := x][..n] == fs[..n];
    }
  }

  lemma {:induction false} CountSameOwners(fs: seq<FrameMeta>, fs': seq<FrameMeta>, s: nat)
    requires SameOwners(fs, fs')
    ensures Count(fs', s) == Count(fs, s)
  {
    if fs != [] {
      CountSameOwners(fs[..|fs| - 1], fs'[..|fs| - 1], s);
    }
  }

  /** A script that owns only frame L owns no other frame. */
  lemma {:induction false} CountOnly(fs: seq<FrameMeta>, L: nat, s: nat)
    requires L < |fs| && fs[L].associatedScript == Some(s) && Count(fs, s) == 1
    ensures forall f :: 0 <= f < |fs| && f != L ==> fs[f].associatedScript != Some(s)
  {
    forall f | 0 <= f < |fs| && f != L
      ensures fs[f].associatedScript != Some(s)
    {
      CountUpdate(fs, L, fs[L].(associatedScript := None), s);
      CountZero(fs[L := fs[L].(associatedScript := None)], s, f);
    }
  }

  lemma {:induction false} CountZero(fs: seq<FrameMeta>, s: nat, f: nat)
    requires f < |fs| && Count(fs, s) == 0
    ensures fs[f].associatedScript != Some(s)
  {
    if f < |fs| - 1 {
      CountZero(fs[..|fs| - 1], s, f);
    }
  }

  /**
   * The invariant tying the frames to the page tables: every record has a
   * full page table and counts exactly the frames it owns; a page-table entry
   * that is not negative names a frame that holds that page of that script;
   * and every owned frame is named by its owner's page table.
   */
  ghost predicate Consistent(fs: seq<FrameMeta>, scripts: map<nat, ScriptFrames>) {
    && (forall s :: s in scripts ==> |scripts[s].pageTable| == PAGE_TABLE_SIZE && scripts[s].framesInUse == Count(fs, s))
    && (forall s, p :: s in scripts && 0 <= p < |scripts[s].pageTable| && scripts[s].pageTable[p] >= 0 ==>
          scripts[s].pageTable[p] < |fs|
          && fs[scripts[s].pageTable[p]].associatedScript == Some(s)
          && fs[scripts[s].pageTable[p]].associatedPageNumber == p)
    && (forall f :: 0 <= f < |fs| && fs[f].associatedScript.Some? ==>
          fs[f].associatedScript.value in scripts
          && 0 <= fs[f].associatedPageNumber < PAGE_TABLE_SIZE
          && scripts[fs[f].associatedScript.value].pageTable[fs[f].associatedPageNumber] == f)
  }

  lemma ConsistentSameOwners(fs: seq<FrameMeta>, fs': seq<FrameMeta>, scripts: map<nat, ScriptFrames>)
    requires Consistent(fs, scripts) && SameOwners(fs, fs')
    ensures Consistent(fs', scripts)
  {
    forall s | s in scripts
      ensures scripts[s].framesInUse == Count(fs', s)
    {
      CountSameOwners(fs, fs', s);
    }
  }

  /** A script that no frame names counts zero frames. */
  lemma {:induction false} CountNone(fs: seq<FrameMeta>, s: nat)
    requires forall f :: 0 <= f < |fs| ==> fs[f].associatedScript != Some(s)
    ensures Count(fs, s) == 0
  {
    if fs != [] {
      CountNone(fs[..|fs| - 1], s);
    }
  }

  /**
   * Two mapped virtual addresses of live scripts land in the same slot only
   * when they are the same address of the same script: scripts never share
   * a frame.
   */
  lemma TranslationInjective(fs: seq<FrameMeta>, scripts: map<nat, ScriptFrames>, s1: nat, va1: int, s2: nat, va2: int)
    requires Consistent(fs, scripts) && s1 in scripts && s2 in scripts
    requires 0 <= va1 < PAGE_SIZE * PAGE_TABLE_SIZE && 0 <= va2 < PAGE_SIZE * PAGE_TABLE_SIZE
    requires VirtualToPhysical(va1, scripts[s1].pageTable) == VirtualToPhysical(va2, scripts[s2].pageTable) != -1
    ensures s1 == s2 && va1 == va2
  {
    var f := scripts[s1].pageTable[va1 / PAGE_SIZE];
    assert fs[f].associatedScript == Some(s1) && fs[f].associatedPageNumber == va1 / PAGE_SIZE;
  }

  // ----- page assignment bookkeeping -----

  /**
   * The records once page `page` of `owner` (if the frame had an owner) has
   * been evicted: the owner's page-table entry is invalidated and its frame
   * count decremented; the record is dropped once neither a PCB nor a frame
   * uses it.
   */
  function AfterEviction(owner: Option<nat>, page: int, scripts: map<nat, ScriptFrames>): (r: map<nat, ScriptFrames>)
    requires owner.Some? ==> owner.value in scripts && 0 <= page < |scripts[owner.value].pageTable|
    ensures owner == None ==> r == scripts
    ensures forall s :: s in r ==> s in scripts
    ensures forall s :: s in scripts && Some(s) != owner ==> s in r && r[s] == scripts[s]
    ensures owner.Some? ==>
              var v := owner.value;
              (v !in r <==> scripts[v].pcbsInUse == 0 && scripts[v].framesInUse - 1 == 0)
              && (v in r ==> r[v] == scripts[v].(pageTable := scripts[v].pageTable[page := -1],
                                                 framesInUse := scripts[v].framesInUse - 1))
  {
    match owner
    case None => scripts
    case Some(v) =>
      var rec := scripts[v].(pageTable := scripts[v].pageTable[page := -1], framesInUse := scripts[v].framesInUse - 1);
      if rec.pcbsInUse == 0 && rec.framesInUse == 0 then scripts - {v} else scripts[v := rec]
  }

  /** The records once page p of script sh lives in frame L. */
  function Installed(scripts: map<nat, ScriptFrames>, sh: nat, p: nat, L: nat): (r: map<nat, ScriptFrames>)
    requires sh in scripts && p < |scripts[sh].pageTable|
    ensures r.Keys == scripts.Keys
    ensures forall s :: s in scripts && s != sh ==> r[s] == scripts[s]
    ensures |r[sh].pageTable| == |scripts[sh].pageTable|
    ensures r[sh].pageTable[p] == L && r[sh].framesInUse == scripts[sh].framesInUse + 1
    ensures forall q :: 0 <= q < |scripts[sh].pageTable| && q != p ==> r[sh].pageTable[q] == scripts[sh].pageTable[q]
    ensures r[sh].scriptName == scripts[sh].scriptName && r[sh].pcbsInUse == scripts[sh].pcbsInUse
  {
    scripts[sh := scripts[sh].(pageTable := scripts[sh].pageTable[p := L], framesInUse := scripts[sh].framesInUse + 1)]
  }

  /** Frame fm belongs to a script called name. */
  ghost predicate Holds(fm: FrameMeta, scripts: map<nat, ScriptFrames>, name: string) {
    fm.associatedScript.Some? && fm.associatedScript.value in scripts
    && scripts[fm.associatedScript.value].scriptName == name
  }

  /**
   * The use-after-free guard: the frame about to be reused is not the last
   * frame of page-table record sh while no PCB uses sh.
   */
  ghost predicate KeepsRecord(owner: Option<nat>, scripts: map<nat, ScriptFrames>, sh: nat)
    requires sh in scripts
  {
    owner == Some(sh) ==> scripts[sh].pcbsInUse != 0 || scripts[sh].framesInUse != 1
  }

  /** Frame counts after frame L changes hands from its owner to sh. */
  lemma ReassignCounts(fs: seq<FrameMeta>, L: nat, sh: nat, p: nat, s: nat)
    requires L < |fs|
    ensures Count(fs[L := FrameMeta(Some(sh), p, fs[L].lruIdx)], s)
            == Count(fs, s) - (if fs[L].associatedScript == Some(s) then 1 else 0) + (if s == sh then 1 else 0)
  {
    CountUpdate(fs, L, FrameMeta(Some(sh), p, fs[L].lruIdx), s);
  }

  /**
   * pageAssignment keeps the frames and page tables consistent: handing the
   * former-LRU frame L from its owner to page p of sh, with the owner's
   * record updated or dropped as the source does, leaves every record
   * counting its frames and every mapping pointing both ways.
   */
  lemma ReassignConsistent(fs: seq<FrameMeta>, scripts: map<nat, ScriptFrames>, L: nat, sh: nat, p: nat)
    requires Consistent(fs, scripts) && L < |fs|
    requires sh in scripts && p < PAGE_TABLE_SIZE && scripts[sh].pageTable[p] < 0
    requires KeepsRecord(fs[L].associatedScript, scripts, sh)
    ensures sh in AfterEviction(fs[L].associatedScript, fs[L].associatedPageNumber, scripts)
    ensures Consistent(fs[L := FrameMeta(Some(sh), p, fs[L].lruIdx)], Installed(AfterEviction(fs[L].associatedScript, fs[L].associatedPageNumber, scripts), sh, p, L))
  {
    ReassignKeepsCounts(fs, scripts, L, sh, p);
    ReassignKeepsMappings(fs, scripts, L, sh, p);
    ReassignKeepsOwners(fs, scripts, L, sh, p);
  }

  lemma ReassignKeepsCounts(fs: seq<FrameMeta>, scripts: map<nat, ScriptFrames>, L: nat, sh: nat, p: nat)
    requires Consistent(fs, scripts) && L < |fs|
    requires sh in scripts && p < PAGE_TABLE_SIZE && scripts[sh].pageTable[p] < 0
    requires KeepsRecord(fs[L].associatedScript, scripts, sh)
    ensures sh in AfterEviction(fs[L].associatedScript, fs[L].associatedPageNumber, scripts)
    ensures var fs', sc' := fs[L := FrameMeta(Some(sh), p, fs[L].lruIdx)], Installed(AfterEviction(fs[L].associatedScript, fs[L].associatedPageNumber, scripts), sh, p, L);
            forall s :: s in sc' ==> |sc'[s].pageTable| == PAGE_TABLE_SIZE && sc'[s].framesInUse == Count(fs', s)
  {
    var fs', sc' := fs[L := FrameMeta(Some(sh), p, fs[L].lruIdx)], Installed(AfterEviction(fs[L].associatedScript, fs[L].associatedPageNumber, scripts), sh, p, L);
    forall s | s in sc'
      ensures |sc'[s].pageTable| == PAGE_TABLE_SIZE && sc'[s].framesInUse == Count(fs', s)
    {
      ReassignCounts(fs, L, sh, p, s);
    }
  }

  lemma ReassignKeepsMappings(fs: seq<FrameMeta>, scripts: map<nat, ScriptFrames>, L: nat, sh: nat, p: nat)
    requires Consistent(fs, scripts) && L < |fs|
    requires sh in scripts && p < PAGE_TABLE_SIZE && scripts[sh].pageTable[p] < 0
    requires KeepsRecord(fs[L].associatedScript, scripts, sh)
    ensures sh in AfterEviction(fs[L].associatedScript, fs[L].associatedPageNumber, scripts)
    ensures var fs', sc' := fs[L := FrameMeta(Some(sh), p, fs[L].lruIdx)], Installed(AfterEviction(fs[L].associatedScript, fs[L].associatedPageNumber, scripts), sh, p, L);
            forall s, q :: s in sc' && 0 <= q < |sc'[s].pageTable| && sc'[s].pageTable[q] >= 0 ==>
              sc'[s].pageTable[q] < |fs'|
              && fs'[sc'[s].pageTable[q]].associatedScript == Some(s)
              && fs'[sc'[s].pageTable[q]].associatedPageNumber == q
  {
    var fs', sc' := fs[L := FrameMeta(Some(sh), p, fs[L].lruIdx)], Installed(AfterEviction(fs[L].associatedScript, fs[L].associatedPageNumber, scripts), sh, p, L);
    forall s, q | s in sc' && 0 <= q < |sc'[s].pageTable| && sc'[s].pageTable[q] >= 0
      ensures sc'[s].pageTable[q] < |fs'|
              && fs'[sc'[s].pageTable[q]].associatedScript == Some(s)
              && fs'[sc'[s].pageTable[q]].associatedPageNumber == q
    {
      if s != sh || q != p {
        assert sc'[s].pageTable[q] == scripts[s].pageTable[q];
      }
    }
  }

  lemma ReassignKeepsOwners(fs: seq<FrameMeta>, scripts: map<nat, ScriptFrames>, L: nat, sh: nat, p: nat)
    requires Consistent(fs, scripts) && L < |fs|
    requires sh in scripts && p < PAGE_TABLE_SIZE && scripts[sh].pageTable[p] < 0
    requires KeepsRecord(fs[L].associatedScript, scripts, sh)
    ensures sh in AfterEviction(fs[L].associatedScript, fs[L].associatedPageNumber, scripts)
    ensures var fs', sc' := fs[L := FrameMeta(Some(sh), p, fs[L].lruIdx)], Installed(AfterEviction(fs[L].associatedScript, fs[L].associatedPageNumber, scripts), sh, p, L);
            forall f :: 0 <= f < |fs'| && fs'[f].associatedScript.Some? ==>
              fs'[f].associatedScript.value in sc'
              && 0 <= fs'[f].associatedPageNumber < PAGE_TABLE_SIZE
              && sc'[fs'[f].associatedScript.value].pageTable[fs'[f].associatedPageNumber] == f
  {
    var mid := AfterEviction(fs[L].associatedScript, fs[L].associatedPageNumber, scripts);
    var fs', sc' := fs[L := FrameMeta(Some(sh), p, fs[L].lruIdx)], Installed(mid, sh, p, L);
    forall f | 0 <= f < |fs'| && fs'[f].associatedScript.Some?
      ensures fs'[f].associatedScript.value in sc'
              && 0 <= fs'[f].associatedPageNumber < PAGE_TABLE_SIZE
              && sc'[fs'[f].associatedScript.value].pageTable[fs'[f].associatedPageNumber] == f
    {
      if f != L {
        var s := fs[f].associatedScript.value;
        if fs[L].associatedScript == Some(s) && s !in mid {
          CountOnly(fs, L, s);
        }
      }
    }
  }

  // ----- loaded pages and victim reports -----

  /** The slots of page p once loaded from a script whose lines are `lines`. */
  function PageLines(lines: seq<string>, p: nat): (r: seq<Option<string>>)
    ensures |r| == PAGE_SIZE
    ensures forall k :: 0 <= k < PAGE_SIZE && p * PAGE_SIZE + k >= |lines| ==> r[k] == None
  {
    seq(PAGE_SIZE, k requires 0 <= k < PAGE_SIZE =>
      if p * PAGE_SIZE + k < |lines| then Some(lines[p * PAGE_SIZE + k]) else None)
  }

  /** The lines held by some slots, in order, empty slots skipped. */
  function Present(slots: seq<Option<string>>): seq<string> {
    if slots == [] then []
    else Present(slots[..|slots| - 1]) + (if slots[|slots| - 1].Some? then [slots[|slots| - 1].value] else [])
  }

  /** `slots` with the n slots from `base` emptied. */
  function Cleared(slots: seq<Option<string>>, base: int, n: int): (r: seq<Option<string>>)
    ensures |r| == |slots|
    ensures forall i :: 0 <= i < |slots| ==> r[i] == if base <= i < base + n then None else slots[i]
  {
    seq(|slots|, i requires 0 <= i < |slots| => if base <= i < base + n then None else slots[i])
  }

  lemma ClearedStep(slots: seq<Option<string>>, base: int, n: int)
    requires 0 <= base + n < |slots| && n >= 0
    ensures Cleared(slots, base, n)[base + n := None] == Cleared(slots, base, n + 1)
  {
  }

  /** `slots` with the |page| slots from `base` replaced by page. */
  function Spliced(slots: seq<Option<string>>, base: int, page: seq<Option<string>>): (r: seq<Option<string>>)
    ensures |r| == |slots|
    ensures forall i :: 0 <= i < |slots| ==> r[i] == if base <= i < base + |page| then page[i - base] else slots[i]
  {
    seq(|slots|, i requires 0 <= i < |slots| => if base <= i < base + |page| then page[i - base] else slots[i])
  }

  lemma SplicedStep(slots: seq<Option<string>>, base: int, page: seq<Option<string>>, k: int)
    requires 0 <= base && 0 <= k < |page| && base + k < |slots|
    ensures Spliced(slots, base, page[..k])[base + k := page[k]] == Spliced(slots, base, page[..k + 1])
  {
  }

  /** Splicing in empty slots over empty slots changes nothing. */
  lemma SplicedRest(slots: seq<Option<string>>, base: int, page: seq<Option<string>>, k: int)
    requires 0 <= base && 0 <= k <= |page| && base + |page| <= |slots|
    requires forall j :: k <= j < |page| ==> page[j] == None
    requires forall i :: base + k <= i < base + |page| ==> slots[i] == None
    ensures Spliced(slots, base, page[..k]) == Spliced(slots, base, page)
  {
  }

  /** Splicing a whole page over an emptied page is splicing it over the original. */
  lemma SplicedCleared(slots: seq<Option<string>>, base: int, page: seq<Option<string>>)
    ensures Spliced(Cleared(slots, base, |page|), base, page) == Spliced(slots, base, page)
  {
  }

  lemma PresentSnoc(slots: seq<Option<string>>, k: nat)
    requires k < |slots|
    ensures Present(slots[..k + 1]) == Present(slots[..k]) + Present([slots[k]])
  {
    assert slots[..k + 1][..k] == slots[..k];
    assert [slots[k]][..0] == [];
  }

  const VICTIM_HEADER: string := "Page fault! Victim page contents:\n\n"
  const VICTIM_FOOTER: string := "\nEnd of victim page contents.\n"
  const PAGE_FAULT: string := "Page fault!\n"

  /** The report declareVictimePage prints for a frame holding `slots`. */
  function VictimReport(slots: seq<Option<string>>): (r: seq<string>)
    ensures |r| >= 2 && r[0] == VICTIM_HEADER && r[|r| - 1] == VICTIM_FOOTER
  {
    [VICTIM_HEADER] + Present(slots) + [VICTIM_FOOTER]
  }

  /** A slot outside every held page is empty. */
  ghost predicate EmptyUnlessOwned(fs: seq<FrameMeta>, code: seq<Option<string>>) {
    forall i :: 0 <= i < |code| && (i / PAGE_SIZE >= |fs| || fs[i / PAGE_SIZE].associatedScript == None) ==> code[i] == None
  }

  /**
   * The frame store invariant: FRAME_NUMBER frames of PAGE_SIZE slots; the
   * ranks are a permutation; frames and page tables agree; every handle in
   * use was issued; a slot outside every held page is empty.
   */
  ghost predicate Coherent(fs: seq<FrameMeta>, scripts: map<nat, ScriptFrames>, code: seq<Option<string>>, nextHandle: nat) {
    && |fs| == |code| / PAGE_SIZE
    && DenseRanks(fs)
    && Consistent(fs, scripts)
    && (forall s :: s in scripts ==> s < nextHandle)
    && EmptyUnlessOwned(fs, code)
  }

  /** Promoting a frame keeps the store coherent. */
  lemma CoherentPromote(fs: seq<FrameMeta>, scripts: map<nat, ScriptFrames>, code: seq<Option<string>>, nextHandle: nat, f: nat)
    requires Coherent(fs, scripts, code, nextHandle) && f < |fs|
    ensures Coherent(Promote(fs, f), scripts, code, nextHandle)
  {
    PromoteKeepsRanksDense(fs, f);
    ConsistentSameOwners(fs, Promote(fs, f), scripts);
  }

  /** Emptying a slot keeps the store coherent. */
  lemma CoherentEmptySlot(fs: seq<FrameMeta>, scripts: map<nat, ScriptFrames>, code: seq<Option<string>>, nextHandle: nat, pa: int)
    requires Coherent(fs, scripts, code, nextHandle) && 0 <= pa < |code|
    ensures Coherent(fs, scripts, code[pa := None], nextHandle)
  {
  }

  /**
   * Where declareVictimePage stands after the first k slots of a victim page
   * held in frame f (no frame when f < 0), from frames fs0, slots code0 and
   * printed text out0 (the header already printed).
   */
  ghost predicate DeclaredUpTo(f: int, k: int, fs: seq<FrameMeta>, code: seq<Option<string>>, out: seq<string>,
                               fs0: seq<FrameMeta>, code0: seq<Option<string>>, out0: seq<string>)
  {
    && (f < 0 ==> fs == fs0 && code == code0 && out == out0)
    && (f >= 0 ==>
          && 0 <= k <= PAGE_SIZE && f < |fs0| && PAGE_SIZE * f + PAGE_SIZE <= |code0|
          && fs == (if k == 0 then fs0 else Promote(fs0, f))
          && out == out0 + Present(code0[PAGE_SIZE * f .. PAGE_SIZE * f + k])
          && code == Cleared(code0, PAGE_SIZE * f, k))
  }

  /** One slot of declareVictimePage's loop, on values. */
  lemma DeclaredStep(f: int, k: int, fs: seq<FrameMeta>, code: seq<Option<string>>, out: seq<string>,
                     fs': seq<FrameMeta>, code': seq<Option<string>>, out': seq<string>,
                     fs0: seq<FrameMeta>, code0: seq<Option<string>>, out0: seq<string>)
    requires DeclaredUpTo(f, k, fs, code, out, fs0, code0, out0) && DenseRanks(fs0) && 0 <= k < PAGE_SIZE
    requires f < 0 ==> fs' == fs && code' == code && out' == out
    requires f >= 0 ==>
               && fs' == Promote(fs, f)
               && code' == code[PAGE_SIZE * f + k := None]
               && out' == out + Present([code[PAGE_SIZE * f + k]])
    ensures DeclaredUpTo(f, k + 1, fs', code', out', fs0, code0, out0)
  {
    if f >= 0 {
      var base := PAGE_SIZE * f;
      DeclaredFramesStep(fs0, f, k, fs);
      assert code[base + k] == code0[base + k];
      DeclaredOutStep(code0, base, k, out0, out);
      ClearedStep(code0, base, k);
    }
  }

  /** Promoting frame f again, once it has been promoted, changes nothing. */
  lemma DeclaredFramesStep(fs0: seq<FrameMeta>, f: nat, k: int, fs: seq<FrameMeta>)
    requires DenseRanks(fs0) && f < |fs0|
    requires fs == (if k == 0 then fs0 else Promote(fs0, f))
    ensures Promote(fs, f) == Promote(fs0, f)
  {
    if k != 0 {
      PromoteKeepsRanksDense(fs0, f);
      PromoteFront(Promote(fs0, f), f);
    }
  }

  /** The text printed for the first k slots from base, then slot k. */
  lemma DeclaredOutStep(code0: seq<Option<string>>, base: nat, k: nat, out0: seq<string>, out: seq<string>)
    requires base + k < |code0|
    requires out == out0 + Present(code0[base .. base + k])
    ensures out + Present([code0[base + k]]) == out0 + Present(code0[base .. base + k + 1])
  {
    var slots := code0[base .. base + k + 1];
    assert slots[..k] == code0[base .. base + k];
    assert slots[k] == code0[base + k];
    PresentSnoc(slots, k);
    assert slots[..k + 1] == slots;
    AppendAssoc(out0, Present(slots[..k]), Present([slots[k]]));
  }

  /**
   * One slot of declareVictimePage's loop, stated as the slot step leaves
   * it: through the translation of address victimePage*PAGE_SIZE+k.
   */
  lemma DeclaredSlotAgrees(pageTable: seq<int>, victimePage: int, k: int,
                           fs: seq<FrameMeta>, code: seq<Option<string>>, out: seq<string>,
                           fs': seq<FrameMeta>, code': seq<Option<string>>, out': seq<string>,
                           fs0: seq<FrameMeta>, code0: seq<Option<string>>, out0: seq<string>)
    requires |pageTable| == PAGE_TABLE_SIZE && 0 <= victimePage < PAGE_TABLE_SIZE && 0 <= k < PAGE_SIZE
    requires DeclaredUpTo(pageTable[victimePage], k, fs, code, out, fs0, code0, out0) && DenseRanks(fs0)
    requires var pa := VirtualToPhysical(victimePage * PAGE_SIZE + k, pageTable);
             pa == -1 ==> fs' == fs && code' == code && out' == out
    requires var pa := VirtualToPhysical(victimePage * PAGE_SIZE + k, pageTable);
             pa != -1 ==>
               && 0 <= pa < |code|
               && fs' == Promote(fs, pa / PAGE_SIZE)
               && code' == code[pa := None]
               && out' == out + Present([code[pa]])
    ensures DeclaredUpTo(pageTable[victimePage], k + 1, fs', code', out', fs0, code0, out0)
  {
    PageAndOffset(victimePage, k);
    DeclaredStep(pageTable[victimePage], k, fs, code, out, fs', code', out', fs0, code0, out0);
  }

  lemma DeclaredStart(f: int, fs0: seq<FrameMeta>, code0: seq<Option<string>>, out0: seq<string>)
    requires f >= 0 ==> f < |fs0| && PAGE_SIZE * f + PAGE_SIZE <= |code0|
    ensures DeclaredUpTo(f, 0, fs0, code0, out0, fs0, code0, out0)
  {
    if f >= 0 {
      assert Present(code0[PAGE_SIZE * f .. PAGE_SIZE * f + 0]) == [];
      assert Cleared(code0, PAGE_SIZE * f, 0) == code0;
    }
  }

  /** All of the victim page handled: the report and the emptied frame. */
  lemma DeclaredEnd(f: int, fs: seq<FrameMeta>, code: seq<Option<string>>, out: seq<string>,
                    fs0: seq<FrameMeta>, code0: seq<Option<string>>, before: seq<string>)
    requires DeclaredUpTo(f, PAGE_SIZE, fs, code, out, fs0, code0, before + [VICTIM_HEADER])
    ensures f < 0 ==> fs == fs0 && code == code0 && out + [VICTIM_FOOTER] == before + VictimReport([])
    ensures f >= 0 ==>
              && 0 <= PAGE_SIZE * f && PAGE_SIZE * f + PAGE_SIZE <= |code0|
              && fs == Promote(fs0, f)
              && out + [VICTIM_FOOTER] == before + VictimReport(code0[PAGE_SIZE * f .. PAGE_SIZE * f + PAGE_SIZE])
              && code == Cleared(code0, PAGE_SIZE * f, PAGE_SIZE)
  {
    if f >= 0 {
      var shown := Present(code0[PAGE_SIZE * f .. PAGE_SIZE * f + PAGE_SIZE]);
      AppendAssoc(before, [VICTIM_HEADER], shown);
      AppendAssoc(before, [VICTIM_HEADER] + shown, [VICTIM_FOOTER]);
    } else {
      assert Present([]) == [];
    }
  }

  /**
   * pageAssignment keeps the store coherent: frame L handed to page p of sh,
   * records updated as the eviction demands, and no slot outside frame L
   * touched.
   */
  lemma CoherentAfterAssignment(fs: seq<FrameMeta>, scripts: map<nat, ScriptFrames>, code: seq<Option<string>>,
                                nextHandle: nat, L: nat, sh: nat, p: nat, code': seq<Option<string>>)
    requires Coherent(fs, scripts, code, nextHandle) && L < |fs|
    requires sh in scripts && p < PAGE_TABLE_SIZE && scripts[sh].pageTable[p] < 0
    requires KeepsRecord(fs[L].associatedScript, scripts, sh)
    requires |code'| == |code|
    requires forall i :: 0 <= i < |code| && !(PAGE_SIZE * L <= i < PAGE_SIZE * L + PAGE_SIZE) ==> code'[i] == code[i]
    ensures sh in AfterEviction(fs[L].associatedScript, fs[L].associatedPageNumber, scripts)
    ensures Coherent(fs[L := FrameMeta(Some(sh), p, fs[L].lruIdx)], Installed(AfterEviction(fs[L].associatedScript, fs[L].associatedPageNumber, scripts), sh, p, L), code', nextHandle)
  {
    var fs' := fs[L := FrameMeta(Some(sh), p, fs[L].lruIdx)];
    ReassignConsistent(fs, scripts, L, sh, p);
    assert forall i :: 0 <= i < |fs'| ==> fs'[i].lruIdx == fs[i].lruIdx;
    forall i | 0 <= i < |code'| && (i / PAGE_SIZE >= |fs'| || fs'[i / PAGE_SIZE].associatedScript == None)
      ensures code'[i] == None
    {
      if PAGE_SIZE * L <= i < PAGE_SIZE * L + PAGE_SIZE {
        PageAndOffset(L, i - PAGE_SIZE * L);
      }
    }
  }

  // ----- the frame store -----

  /**
   * The paged script memory: the line slots (`shellmemoryCode`), the frame
   * metadata (`framesMetadata`), the live page-table records, and what the
   * store has printed, one printf per element.
   */
  class FrameStore {
    const code: array<Option<string>>
    const frames: array<FrameMeta>
    var scripts: map<nat, ScriptFrames>
    var nextHandle: nat
    var output: seq<string>

    /** The store invariant: see Coherent. */
    ghost predicate Valid()
      reads this, frames, code
    {
      Coherent(frames[..], scripts, code[..], nextHandle)
    }

    /**
     * scripts_memory_init: every slot empty, every frame unowned, frame i
     * at rank FRAME_NUMBER-i-1.
     */
    constructor Init(frameStoreSize: nat)
      ensures Valid()
      ensures code.Length == frameStoreSize && frames.Length == frameStoreSize / PAGE_SIZE
      ensures frames[..] == InitialFrames(frameStoreSize / PAGE_SIZE)
      ensures forall i :: 0 <= i < code.Length ==> code[i] == None
      ensures scripts == map[] && output == []
    {
      code := new Option<string>[frameStoreSize];
      frames := new FrameMeta[frameStoreSize / PAGE_SIZE];
      scripts := map[];
      nextHandle := 0;
      output := [];
      new;
      var memIdx := 0;
      while memIdx < code.Length
        invariant 0 <= memIdx <= code.Length
        invariant forall i :: 0 <= i < memIdx ==> code[i] == None
        invariant scripts == map[] && nextHandle == 0 && output == []
      {
        code[memIdx] := None;
        memIdx := memIdx + 1;
      }
      var n := frames.Length;
      var frameIdx := 0;
      while frameIdx < n
        invariant 0 <= frameIdx <= n
        invariant forall i :: 0 <= i < frameIdx ==> frames[i] == InitialFrames(n)[i]
        invariant forall i :: 0 <= i < code.Length ==> code[i] == None
        invariant scripts == map[] && nextHandle == 0 && output == []
      {
        frames[frameIdx] := FrameMeta(None, 0, n - frameIdx - 1);
        frameIdx := frameIdx + 1;
      }
      assert frames[..] == InitialFrames(n);
      InitialFramesDense(n);
    }

    /**
     * A new page-table record with no page resident, as the loader creates
     * one for a script that is not in memory yet.
     */
    method Register(scriptName: string, lengthCode: int, pcbsInUse: int) returns (h: nat)
      requires Valid()
      modifies this
      ensures Valid()
      ensures h !in old(scripts)
      ensures scripts == old(scripts)[h := ScriptFrames(scriptName, lengthCode, seq(PAGE_TABLE_SIZE, _ => -1), pcbsInUse, 0)]
      ensures output == old(output)
    {
      h := nextHandle;
      forall f | 0 <= f < frames.Length
        ensures frames[..][f].associatedScript != Some(h)
      {
        assert frames[f] == frames[..][f];
      }
      CountNone(frames[..], h);
      scripts := scripts[h := ScriptFrames(scriptName, lengthCode, seq(PAGE_TABLE_SIZE, _ => -1), pcbsInUse, 0)];
      nextHandle := nextHandle + 1;
    }

    /** updateLRURanking */
    method UpdateLRURanking(frameMostRecentlyUsed: nat)
      requires frameMostRecentlyUsed < frames.Length
      modifies frames
      ensures frames[..] == Promote(old(frames[..]), frameMostRecentlyUsed)
    {
      var oldRank := frames[frameMostRecentlyUsed].lruIdx;
      var frameIdx := 0;
      while frameIdx < frames.Length
        invariant 0 <= frameIdx <= frames.Length
        invariant forall i :: 0 <= i < frameIdx ==> frames[i] == Promote(old(frames[..]), frameMostRecentlyUsed)[i]
        invariant forall i :: frameIdx <= i < frames.Length ==> frames[i] == old(frames[i])
      {
        if frames[frameIdx].lruIdx < oldRank {
          frames[frameIdx] := frames[frameIdx].(lruIdx := frames[frameIdx].lruIdx + 1);
        } else if frames[frameIdx].lruIdx == oldRank {
          frames[frameIdx] := frames[frameIdx].(lruIdx := 0);
        }
        frameIdx := frameIdx + 1;
      }
    }

    /** findLRUFrame: the one frame at the last rank. */
    method FindLRUFrame() returns (frameIdx: nat)
      requires Valid() && frames.Length >= 1
      ensures frameIdx < frames.Length && frames[frameIdx].lruIdx == frames.Length - 1
      ensures forall g :: 0 <= g < frames.Length && frames[g].lruIdx == frames.Length - 1 ==> g == frameIdx
    {
      LruFrameUnique(frames[..]);
      frameIdx := 0;
      while frames[frameIdx].lruIdx != frames.Length - 1
        invariant frameIdx < frames.Length
        invariant forall j :: 0 <= j < frameIdx ==> frames[j].lruIdx != frames.Length - 1
        decreases frames.Length - frameIdx
      {
        frameIdx := frameIdx + 1;
      }
    }

    /**
     * findExistingScript: the record of the first frame, in frame order,
     * that belongs to a script called `script`, or None when no frame does.
     */
    method FindExistingScript(script: string) returns (rv: Option<nat>)
      requires Valid()
      ensures rv == None <==> forall f :: 0 <= f < frames.Length ==> !Holds(frames[f], scripts, script)
      ensures rv.Some? ==> rv.value in scripts && scripts[rv.value].scriptName == script
      ensures rv.Some? ==> exists f :: 0 <= f < frames.Length && frames[f].associatedScript == rv
                                       && forall g :: 0 <= g < f ==> !Holds(frames[g], scripts, script)
    {
      rv := None;
      var frameIdx := 0;
      while frameIdx < frames.Length
        invariant 0 <= frameIdx <= frames.Length
        invariant forall g :: 0 <= g < frameIdx ==> !Holds(frames[g], scripts, script)
      {
        var owner := frames[frameIdx].associatedScript;
        if owner.Some? && scripts[owner.value].scriptName == script {
          rv := owner;
          assert Holds(frames[frameIdx], scripts, script);
          return;
        }
        frameIdx := frameIdx + 1;
      }
    }

    /** A slot of a frame lies inside the store. */
    lemma SlotInStore(f: int, k: int)
      requires Valid() && 0 <= f < frames.Length && 0 <= k < PAGE_SIZE
      ensures PAGE_SIZE * f + k < code.Length
    {
    }

    /**
     * fetchInstructionVirtual: on a miss, None and the ranks untouched; on
     * a hit, the slot's contents, with its frame promoted to rank 0.
     */
    method FetchInstructionVirtual(instructionVirtualAddress: int, sh: nat) returns (rv: Option<string>)
      requires Valid() && sh in scripts
      requires 0 <= instructionVirtualAddress < PAGE_SIZE * PAGE_TABLE_SIZE
      modifies frames
      ensures Valid()
      ensures var pa := VirtualToPhysical(instructionVirtualAddress, scripts[sh].pageTable);
              && (pa == -1 ==> rv == None && frames[..] == old(frames[..]))
              && (pa != -1 ==> 0 <= pa < code.Length && rv == code[pa]
                               && frames[..] == Promote(old(frames[..]), pa / PAGE_SIZE))
    {
      var physicalAddress := VirtualToPhysical(instructionVirtualAddress, scripts[sh].pageTable);
      if physicalAddress >= 0 {
        SlotInStore(physicalAddress / PAGE_SIZE, physicalAddress % PAGE_SIZE);
        rv := code[physicalAddress];
        UpdateLRURanking(physicalAddress / PAGE_SIZE);
        CoherentPromote(old(frames[..]), scripts, code[..], nextHandle, physicalAddress / PAGE_SIZE);
      } else {
        rv := None;
      }
    }

    /**
     * updateInstructionVirtual: the slot the address maps to now holds
     * `newInstruction`, and no other slot changes. The address must be
     * mapped, as the source assumes of its internal callers.
     */
    method UpdateInstructionVirtual(instructionVirtualAddress: int, sh: nat, newInstruction: Option<string>)
      requires sh in scripts && 0 <= instructionVirtualAddress < PAGE_SIZE * |scripts[sh].pageTable|
      requires 0 <= VirtualToPhysical(instructionVirtualAddress, scripts[sh].pageTable) < code.Length
      modifies code
      ensures code[..] == old(code[..])[VirtualToPhysical(instructionVirtualAddress, scripts[sh].pageTable) := newInstruction]
    {
      var physicalAddress := VirtualToPhysical(instructionVirtualAddress, scripts[sh].pageTable);
      code[physicalAddress] := newInstruction;
    }
  
    /**
     * One iteration of declareVictimePage's loop: fetch the slot at
     * `pageOffset` of the victim page and, when it holds a line, print the
     * line and empty the slot.
     */
    method DeclareVictimSlot(victimePage: int, sh: nat, pageOffset: int)
      requires Valid() && sh in scripts && 0 <= victimePage < PAGE_TABLE_SIZE && 0 <= pageOffset < PAGE_SIZE
      modifies this, frames, code
      ensures Valid() && scripts == old(scripts) && nextHandle == old(nextHandle)
      ensures var pa := VirtualToPhysical(victimePage * PAGE_SIZE + pageOffset, scripts[sh].pageTable);
              pa == -1 ==> frames[..] == old(frames[..]) && code[..] == old(code[..]) && output == old(output)
      ensures var pa := VirtualToPhysical(victimePage * PAGE_SIZE + pageOffset, scripts[sh].pageTable);
              pa != -1 ==>
                && 0 <= pa < code.Length
                && frames[..] == Promote(old(frames[..]), pa / PAGE_SIZE)
                && code[..] == old(code[..])[pa := None]
                && output == old(output) + Present([old(code[..])[pa]])
    {
      var virtualAddress := victimePage * PAGE_SIZE + pageOffset;
      ghost var pa := VirtualToPhysical(virtualAddress, scripts[sh].pageTable);
      ghost var code0 := code[..];
      var instruction := FetchInstructionVirtual(virtualAddress, sh);
      if instruction.Some? {
        assert Present([code0[pa]]) == [instruction.value];
        output := output + [instruction.value];
        UpdateInstructionVirtual(virtualAddress, sh, None);
        CoherentEmptySlot(frames[..], scripts, code0, nextHandle, pa);
      } else if pa != -1 {
        assert Present([code0[pa]]) == [];
        assert code0[pa := None] == code0;
      }
    }

    lemma DenseFrames()
      requires Valid()
      ensures DenseRanks(frames[..])
    {
    }

    /** The loop of declareVictimePage over the PAGE_SIZE slots of the page. */
    method DeclareVictimLines(victimePage: int, sh: nat)
      requires Valid() && sh in scripts && 0 <= victimePage < PAGE_TABLE_SIZE
      modifies this, frames, code
      ensures Valid() && scripts == old(scripts) && nextHandle == old(nextHandle)
      ensures DeclaredUpTo(scripts[sh].pageTable[victimePage], PAGE_SIZE, frames[..], code[..], output,
                           old(frames[..]), old(code[..]), old(output))
    {
      ghost var f := scripts[sh].pageTable[victimePage];
      if f >= 0 {
        SlotInStore(f, PAGE_SIZE - 1);
      }
      DenseFrames();
      ghost var fs0, code0, out0 := frames[..], code[..], output;
      DeclaredStart(f, fs0, code0, out0);
      var pageOffset := 0;
      ghost var sc0, nh0 := scripts, nextHandle;
      while pageOffset < PAGE_SIZE
        invariant 0 <= pageOffset <= PAGE_SIZE
        invariant Tracked(sh, victimePage, pageOffset, sc0, nh0, fs0, code0, out0)
      {
        DeclareVictimSlotFrom(victimePage, sh, pageOffset, sc0, nh0, fs0, code0, out0);
        pageOffset := pageOffset + 1;
      }
    }

    /** Where declareVictimePage's loop stands after k slots, store invariant included. */
    ghost predicate Tracked(sh: nat, victimePage: int, k: int, sc0: map<nat, ScriptFrames>, nh0: nat,
                            fs0: seq<FrameMeta>, code0: seq<Option<string>>, out0: seq<string>)
      reads this, frames, code
    {
      Valid() && scripts == sc0 && nextHandle == nh0 && sh in scripts && 0 <= victimePage < PAGE_TABLE_SIZE
      && DeclaredUpTo(scripts[sh].pageTable[victimePage], k, frames[..], code[..], output, fs0, code0, out0)
    }

    /** DeclareVictimSlot, seen from where declareVictimePage's loop started. */
    method DeclareVictimSlotFrom(victimePage: int, sh: nat, pageOffset: int, ghost sc0: map<nat, ScriptFrames>, ghost nh0: nat,
                                 ghost fs0: seq<FrameMeta>, ghost code0: seq<Option<string>>, ghost out0: seq<string>)
      requires 0 <= pageOffset < PAGE_SIZE && DenseRanks(fs0)
      requires Tracked(sh, victimePage, pageOffset, sc0, nh0, fs0, code0, out0)
      modifies this, frames, code
      ensures Tracked(sh, victimePage, pageOffset + 1, sc0, nh0, fs0, code0, out0)
    {
      ghost var fs, cs, out := frames[..], code[..], output;
      DeclareVictimSlot(victimePage, sh, pageOffset);
      DeclaredSlotAgrees(scripts[sh].pageTable, victimePage, pageOffset, fs, cs, out, frames[..], code[..], output, fs0, code0, out0);
    }

    /**
     * declareVictimePage: prints the header, the lines still held by the page
     * and the footer, and empties the page's slots; the frame (already most
     * recently used in pageAssignment) is promoted by the fetches.
     */
    method DeclareVictimePage(victimePage: int, sh: nat)
      requires Valid() && sh in scripts && 0 <= victimePage < PAGE_TABLE_SIZE
      modifies this, frames, code
      ensures Valid() && scripts == old(scripts) && nextHandle == old(nextHandle)
      ensures var f := scripts[sh].pageTable[victimePage];
              f < 0 ==> frames[..] == old(frames[..]) && code[..] == old(code[..])
                        && output == old(output) + VictimReport([])
      ensures var f := scripts[sh].pageTable[victimePage];
              f >= 0 ==>
                && 0 <= PAGE_SIZE * f && PAGE_SIZE * f + PAGE_SIZE <= code.Length
                && frames[..] == Promote(old(frames[..]), f)
                && output == old(output) + VictimReport(old(code[..])[PAGE_SIZE * f .. PAGE_SIZE * f + PAGE_SIZE])
                && code[..] == Cleared(old(code[..]), PAGE_SIZE * f, PAGE_SIZE)
    {
      output := output + [VICTIM_HEADER];
      DeclareVictimLines(victimePage, sh);
      DeclaredEnd(scripts[sh].pageTable[victimePage], frames[..], code[..], output, old(frames[..]), old(code[..]), old(output));
      output := output + [VICTIM_FOOTER];
    }

    /**
     * The eviction half of pageAssignment: frame L, already the most
     * recently used, gives up its page. The page is declared and emptied,
     * its owner's entry is invalidated and its count decremented, and the
     * owner's record is dropped (and the frame left unowned) once neither a
     * PCB nor a frame uses it.
     */
    method EvictVictim(L: nat)
      requires Valid() && L < frames.Length && frames[L].lruIdx == 0 && frames[L].associatedScript.Some?
      modifies this, frames, code
      ensures nextHandle == old(nextHandle)
      ensures scripts == AfterEviction(old(frames[L]).associatedScript, old(frames[L]).associatedPageNumber, old(scripts))
      ensures frames[..] == old(frames[..])[L := frames[L]] && frames[L].lruIdx == 0
      ensures PAGE_SIZE * L + PAGE_SIZE <= code.Length
      ensures code[..] == Cleared(old(code[..]), PAGE_SIZE * L, PAGE_SIZE)
      ensures output == old(output) + VictimReport(old(code[..])[PAGE_SIZE * L .. PAGE_SIZE * L + PAGE_SIZE])
    {
      var victim := frames[L].associatedScript.value;
      var victimPage := frames[L].associatedPageNumber;
      OwnedFrame(L);
      assert frames[..][L] == frames[L];
      DenseFrames();
      PromoteFront(frames[..], L);
      ghost var fs0 := frames[..];
      DeclareVictimePage(victimPage, victim);
      assert frames[..] == fs0;
      DropVictimRecord(L, victim, victimPage);
    }

    /** An owned frame is named by its owner's page table. */
    lemma OwnedFrame(L: nat)
      requires Valid() && L < frames.Length && frames[L].associatedScript.Some?
      ensures var fm := frames[L];
              && fm.associatedScript.value in scripts
              && 0 <= fm.associatedPageNumber < PAGE_TABLE_SIZE
              && scripts[fm.associatedScript.value].pageTable[fm.associatedPageNumber] == L
    {
      assert frames[..][L] == frames[L];
    }

    /**
     * The record half of the eviction: the victim's page-table entry is
     * invalidated and its frame count decremented; once neither a PCB nor a
     * frame uses the record it is dropped and frame L left unowned.
     */
    method DropVictimRecord(L: nat, victim: nat, victimPage: int)
      requires L < frames.Length && victim in scripts && 0 <= victimPage < |scripts[victim].pageTable|
      modifies this, frames
      ensures scripts == AfterEviction(Some(victim), victimPage, old(scripts))
      ensures frames[..] == old(frames[..])[L := frames[L]]
      ensures frames[L] == if victim in scripts then old(frames[L]) else old(frames[L]).(associatedScript := None)
      ensures nextHandle == old(nextHandle) && output == old(output)
    {
      var rec := scripts[victim];
      rec := rec.(pageTable := rec.pageTable[victimPage := -1]);
      rec := rec.(framesInUse := rec.framesInUse - 1);
      if rec.pcbsInUse == 0 && rec.framesInUse == 0 {
        scripts := scripts - {victim};
        frames[L] := frames[L].(associatedScript := None);
      } else {
        scripts := scripts[victim := rec];
      }
    }

    /**
     * The load loop of pageAssignment: the lines of page pageNumber, as far
     * as the script has them, go into the page's (empty) slots.
     */
    method LoadPage(L: nat, pageNumber: int, sh: nat, lines: seq<string>)
      requires sh in scripts && 0 <= pageNumber < PAGE_TABLE_SIZE && |scripts[sh].pageTable| == PAGE_TABLE_SIZE
      requires scripts[sh].pageTable[pageNumber] == L && PAGE_SIZE * L + PAGE_SIZE <= code.Length
      requires forall i :: PAGE_SIZE * L <= i < PAGE_SIZE * L + PAGE_SIZE ==> code[i] == None
      modifies code
      ensures code[..] == Spliced(old(code[..]), PAGE_SIZE * L, PageLines(lines, pageNumber))
    {
      ghost var page := PageLines(lines, pageNumber);
      assert Spliced(code[..], PAGE_SIZE * L, page[..0]) == code[..];
      var pageOffsetIdx := 0;
      while pageOffsetIdx < PAGE_SIZE && pageNumber * 3 + pageOffsetIdx < |lines|
        invariant 0 <= pageOffsetIdx <= PAGE_SIZE
        invariant code[..] == Spliced(old(code[..]), PAGE_SIZE * L, page[..pageOffsetIdx])
      {
        PageAndOffset(pageNumber, pageOffsetIdx);
        ghost var before := code[..];
        UpdateInstructionVirtual(pageNumber * 3 + pageOffsetIdx, sh, Some(lines[pageNumber * 3 + pageOffsetIdx]));
        SplicedStep(old(code[..]), PAGE_SIZE * L, page, pageOffsetIdx);
        pageOffsetIdx := pageOffsetIdx + 1;
      }
      assert pageNumber * 3 == pageNumber * PAGE_SIZE;
      SplicedRest(old(code[..]), PAGE_SIZE * L, page, pageOffsetIdx);
    }

    /**
     * pageAssignment: the LRU frame L becomes the most recently used and
     * is handed to page pageNumber of sh. If it held a page, that page is
     * declared and evicted; if not, "Page fault!" is printed unless this is
     * the setup load. Then the page's lines are loaded into the frame.
     *
     * The source demands that the page is not resident yet, and frees the
     * record of the evicted script while still using it if that record is
     * sh itself: the second requires rules that case out.
     */
    method PageAssignment(pageNumber: int, sh: nat, setup: bool, lines: seq<string>) returns (ghost L: nat)
      requires Valid() && frames.Length >= 1
      requires sh in scripts && 0 <= pageNumber < PAGE_TABLE_SIZE && scripts[sh].pageTable[pageNumber] < 0
      requires forall f :: 0 <= f < frames.Length && frames[f].lruIdx == frames.Length - 1 ==> KeepsRecord(frames[f].associatedScript, scripts, sh)
      modifies this, frames, code
      ensures Valid() && nextHandle == old(nextHandle)
      ensures L < frames.Length && old(frames[L].lruIdx) == frames.Length - 1
      ensures frames[..] == Promote(old(frames[..]), L)[L := FrameMeta(Some(sh), pageNumber, 0)]
      ensures sh in AfterEviction(old(frames[L]).associatedScript, old(frames[L]).associatedPageNumber, old(scripts))
      ensures scripts == Installed(AfterEviction(old(frames[L]).associatedScript, old(frames[L]).associatedPageNumber, old(scripts)), sh, pageNumber, L)
      ensures PAGE_SIZE * L + PAGE_SIZE <= code.Length
      ensures output == old(output) + (if old(frames[L].associatedScript).Some? then VictimReport(old(code[..])[PAGE_SIZE * L .. PAGE_SIZE * L + PAGE_SIZE])
                                       else if setup then [] else [PAGE_FAULT])
      ensures code[..] == Spliced(old(code[..]), PAGE_SIZE * L, PageLines(lines, pageNumber))
    {
      var lruFrame := FindLRUFrame();
      L := lruFrame;
      UpdateLRURanking(lruFrame);
      CoherentPromote(old(frames[..]), scripts, code[..], nextHandle, lruFrame);
      PromoteKeepsRanksDense(old(frames[..]), lruFrame);
      assert frames[lruFrame] == Promote(old(frames[..]), lruFrame)[lruFrame];
      ReassignFrame(lruFrame, pageNumber, sh, setup, lines);
    }

    /**
     * pageAssignment once frame L is the most recently used: its page, if
     * any, is evicted; then it is handed to page pageNumber of sh and the
     * page's lines are loaded into it.
     */
    method ReassignFrame(L: nat, pageNumber: int, sh: nat, setup: bool, lines: seq<string>)
      requires Valid() && L < frames.Length && frames[L].lruIdx == 0
      requires sh in scripts && 0 <= pageNumber < PAGE_TABLE_SIZE && scripts[sh].pageTable[pageNumber] < 0
      requires KeepsRecord(frames[L].associatedScript, scripts, sh)
      modifies this, frames, code
      ensures Valid() && nextHandle == old(nextHandle)
      ensures frames[..] == old(frames[..])[L := FrameMeta(Some(sh), pageNumber, 0)]
      ensures sh in AfterEviction(old(frames[L]).associatedScript, old(frames[L]).associatedPageNumber, old(scripts))
      ensures scripts == Installed(AfterEviction(old(frames[L]).associatedScript, old(frames[L]).associatedPageNumber, old(scripts)), sh, pageNumber, L)
      ensures PAGE_SIZE * L + PAGE_SIZE <= code.Length
      ensures output == old(output) + (if old(frames[L].associatedScript).Some? then VictimReport(old(code[..])[PAGE_SIZE * L .. PAGE_SIZE * L + PAGE_SIZE])
                                       else if setup then [] else [PAGE_FAULT])
      ensures code[..] == Spliced(old(code[..]), PAGE_SIZE * L, PageLines(lines, pageNumber))
    {
      SlotInStore(L, PAGE_SIZE - 1);
      ghost var fs1, sc1, code1 := frames[..], scripts, code[..];
      assert fs1[L] == frames[L];
      ReassignConsistent(fs1, sc1, L, sh, pageNumber);
      ReleaseFrame(L, setup);
      InstallPage(L, pageNumber, sh);
      LoadPage(L, pageNumber, sh, lines);
      SplicedCleared(code1, PAGE_SIZE * L, PageLines(lines, pageNumber));
      assert frames[..] == fs1[L := FrameMeta(Some(sh), pageNumber, 0)];
      CoherentAfterAssignment(fs1, sc1, code1, nextHandle, L, sh, pageNumber, code[..]);
    }

    /**
     * The release half of pageAssignment: frame L, already the most recently
     * used, has its page evicted if it holds one; otherwise "Page fault!" is
     * printed unless this is the setup load.
     */
    method ReleaseFrame(L: nat, setup: bool)
      requires Valid() && L < frames.Length && frames[L].lruIdx == 0
      modifies this, frames, code
      ensures nextHandle == old(nextHandle)
      ensures scripts == AfterEviction(old(frames[L]).associatedScript, old(frames[L]).associatedPageNumber, old(scripts))
      ensures frames[..] == old(frames[..])[L := frames[L]] && frames[L].lruIdx == 0
      ensures PAGE_SIZE * L + PAGE_SIZE <= code.Length
      ensures code[..] == Cleared(old(code[..]), PAGE_SIZE * L, PAGE_SIZE)
      ensures output == old(output) + (if old(frames[L].associatedScript).Some? then VictimReport(old(code[..])[PAGE_SIZE * L .. PAGE_SIZE * L + PAGE_SIZE])
                                       else if setup then [] else [PAGE_FAULT])
    {
      if frames[L].associatedScript.Some? {
        EvictVictim(L);
      } else {
        UnownedFrameEmpty(L);
        if !setup {
          output := output + [PAGE_FAULT];
        }
      }
    }

    /**
     * The renewal half of pageAssignment: frame L is given to page
     * pageNumber of sh, and sh's page table and frame count say so.
     */
    method InstallPage(L: nat, pageNumber: int, sh: nat)
      requires sh in scripts && 0 <= pageNumber < |scripts[sh].pageTable| && L < frames.Length
      modifies this, frames
      ensures frames[..] == old(frames[..])[L := FrameMeta(Some(sh), pageNumber, old(frames[L].lruIdx))]
      ensures scripts == Installed(old(scripts), sh, pageNumber, L)
      ensures output == old(output) && nextHandle == old(nextHandle)
    {
      frames[L] := frames[L].(associatedScript := Some(sh));
      scripts := scripts[sh := scripts[sh].(framesInUse := scripts[sh].framesInUse + 1)];
      frames[L] := frames[L].(associatedPageNumber := pageNumber);
      scripts := scripts[sh := scripts[sh].(pageTable := scripts[sh].pageTable[pageNumber := L])];
    }

    /** An unowned frame's slots are empty. */
    lemma UnownedFrameEmpty(L: nat)
      requires Valid() && L < frames.Length && frames[L].associatedScript.None?
      ensures PAGE_SIZE * L + PAGE_SIZE <= code.Length
      ensures forall i :: PAGE_SIZE * L <= i < PAGE_SIZE * L + PAGE_SIZE ==> code[i] == None
      ensures Cleared(code[..], PAGE_SIZE * L, PAGE_SIZE) == code[..]
    {
      forall i | PAGE_SIZE * L <= i < PAGE_SIZE * L + PAGE_SIZE
        ensures code[i] == None
      {
        PageAndOffset(L, i - PAGE_SIZE * L);
        assert code[i] == code[..][i];
      }
    }
  }
}
