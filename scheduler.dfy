/**
 * The A1 scheduler: loading a script into the contiguous store and the ready
 * queue, and the three policy loops that drain the queue.
 *
 * Running a line of a script (handing it to the shell's line splitter) is
 * modelled as appending the line's store index to `trace`. Each policy loop
 * is specified by a function on the queue's records that gives the lines run,
 * in order, and the PCBs that finished, in the order they were freed.
 */
module Scheduler {
  import opened Wrappers
  import opened ContiguousMemory
  import opened ReadyQueue

  /** policy_t. INVALID_POLICY also marks scripts loaded by a background `exec`. */
  datatype Policy = FCFS | SJF | RR | RR30 | AGING | INVALID_POLICY

  /** Lines still to run. */
  function Left(p: PCB): nat {
    if p.programCounter < p.End() then p.End() - p.programCounter else 0
  }

  /** A queued PCB: its counter lies inside its script. */
  predicate Runnable(p: PCB) {
    p.memoryStartIdx <= p.programCounter < p.End()
  }

  ghost predicate AllRunnable(q: seq<PCB>) {
    forall i :: 0 <= i < |q| ==> Runnable(q[i])
  }

  /** Lines still to run over a whole queue. */
  function Remaining(q: seq<PCB>): nat {
    if q == [] then 0 else Left(q[0]) + Remaining(q[1..])
  }

  /** The store indices from `lo` up to, not including, `hi`. */
  function Lines(lo: int, hi: int): (r: seq<int>)
    ensures |r| == if lo <= hi then hi - lo else 0
    ensures forall i :: 0 <= i < |r| ==> r[i] == lo + i
    decreases hi - lo
  {
    if hi <= lo then [] else [lo] + Lines(lo + 1, hi)
  }

  /** What a policy loop does: the lines it runs and the PCBs it frees, both in order. */
  datatype Outcome = Outcome(trace: seq<int>, done: seq<PCB>)

  function Then(a: Outcome, b: Outcome): Outcome {
    Outcome(a.trace + b.trace, a.done + b.done)
  }

  /** A PCB after running up to its end. */
  function Finished(p: PCB): PCB {
    p.(programCounter := p.End())
  }

  /** executeReadyQueuePCBs: each PCB, in queue order, runs all its remaining lines and is freed. */
  function RunToEnd(q: seq<PCB>): Outcome {
    if q == [] then Outcome([], [])
    else Then(Outcome(Lines(q[0].programCounter, q[0].End()), [Finished(q[0])]), RunToEnd(q[1..]))
  }

  /** One turn of runRR: at most n lines, fewer when the script ends first. */
  function Turn(p: PCB, n: int): int {
    if Left(p) < n then Left(p) else n
  }

  /**
   * runRR(n): the head runs a turn; a PCB that reaches its end is freed and
   * any other goes back to the tail.
   */
  function RoundRobin(q: seq<PCB>, n: int): Outcome
    requires n >= 1 && AllRunnable(q)
    decreases Remaining(q), |q|
  {
    if q == [] then Outcome([], [])
    else
      var p := q[0];
      var k := Turn(p, n);
      var p' := p.(programCounter := p.programCounter + k);
      if p'.programCounter == p.End() then
        RemainingSplit(q);
        Then(Outcome(Lines(p.programCounter, p'.programCounter), [p']), RoundRobin(q[1..], n))
      else
        RemainingSplit(q);
        RemainingAppend(q[1..], [p']);
        Then(Outcome(Lines(p.programCounter, p'.programCounter), []), RoundRobin(q[1..] + [p'], n))
  }

  /** runAging from its first pop: nothing happens on an empty queue. */
  function AgingStart(q: seq<PCB>): Outcome
    requires AllRunnable(q)
    decreases Remaining(q), 1
  {
    if q == [] then Outcome([], [])
    else
      RemainingSplit(q);
      AgingRun(q[0], q[1..])
  }

  /**
   * One pass of the runAging loop with `cur` running and `q` waiting: `cur`
   * runs one line, every waiting PCB ages, and then `cur` is freed (and the
   * head runs next), or gives way to the head when the head now scores
   * strictly less (`cur` is put back in SJF order), or keeps running.
   */
  function AgingRun(cur: PCB, q: seq<PCB>): Outcome
    requires Runnable(cur) && AllRunnable(q)
    decreases Remaining(q) + Left(cur), 0
  {
    var cur' := cur.(programCounter := cur.programCounter + 1);
    var q' := AgeAll(q);
    AgeAllRemaining(q);
    var step := [cur.programCounter];
    if cur'.programCounter == cur.End() then
      Then(Outcome(step, [cur']), AgingStart(q'))
    else if q' != [] && q'[0].lengthScore < cur'.lengthScore then
      var r := SjfInsert(q', cur');
      SjfInsertRemaining(q', cur');
      RemainingSplit(r);
      Then(Outcome(step, []), AgingRun(r[0], r[1..]))
    else
      Then(Outcome(step, []), AgingRun(cur', q'))
  }

  /** The free list after freeing the scripts of `done`, in order. */
  function FreeAll(free: seq<Block>, done: seq<PCB>): seq<Block>
    decreases |done|
  {
    if done == [] then free
    else
      var p := done[|done| - 1];
      AddAvail(FreeAll(free, done[..|done| - 1]), p.memoryStartIdx, p.lengthCode)
  }

  // ----- Bookkeeping lemmas for the measures -----

  lemma RemainingSplit(q: seq<PCB>)
    requires q != []
    ensures Remaining(q) == Left(q[0]) + Remaining(q[1..])
  {
  }

  lemma {:induction false} RemainingAppend(a: seq<PCB>, b: seq<PCB>)
    ensures Remaining(a + b) == Remaining(a) + Remaining(b)
  {
    if a != [] {
      assert (a + b)[0] == a[0] && (a + b)[1..] == a[1..] + b;
      RemainingAppend(a[1..], b);
    } else {
      assert a + b == b;
    }
  }

  lemma {:induction false} AgeAllRemaining(q: seq<PCB>)
    ensures Remaining(AgeAll(q)) == Remaining(q)
    ensures AllRunnable(q) ==> AllRunnable(AgeAll(q))
  {
    if q != [] {
      assert AgeAll(q)[1..] == AgeAll(q[1..]);
      AgeAllRemaining(q[1..]);
    }
  }

  lemma SjfInsertRemaining(q: seq<PCB>, p: PCB)
    ensures Remaining(SjfInsert(q, p)) == Remaining(q) + Left(p)
    ensures AllRunnable(q) && Runnable(p) ==> AllRunnable(SjfInsert(q, p))
  {
    var k := InsertPos(q, p.lengthScore);
    assert q[..k] + q[k..] == q;
    SjfInsertLeft(q[..k], q[k..], p, SjfInsert(q, p));
    if AllRunnable(q) && Runnable(p) {
      SjfInsertRunnable(q[..k], q[k..], p, SjfInsert(q, p));
    }
  }

  /** The work left in a queue with p linked in between l and r. */
  lemma SjfInsertLeft(l: seq<PCB>, r: seq<PCB>, p: PCB, s: seq<PCB>)
    requires s == l + [p] + r
    ensures Remaining(s) == Remaining(l + r) + Left(p)
  {
    RemainingAppend(l, r);
    RemainingAppend(l + [p], r);
    RemainingAppend(l, [p]);
    assert Remaining([p]) == Left(p) + Remaining([]);
  }

  /** Linking a runnable PCB in between runnable ones. */
  lemma SjfInsertRunnable(l: seq<PCB>, r: seq<PCB>, p: PCB, s: seq<PCB>)
    requires s == l + [p] + r && AllRunnable(l + r) && Runnable(p)
    ensures AllRunnable(s)
  {
    var k := |l|;
    forall i | 0 <= i < |s|
      ensures Runnable(s[i])
    {
      if i < k { assert s[i] == (l + r)[i]; } else if i > k { assert s[i] == (l + r)[i - 1]; }
    }
  }

  lemma FreeAllAppend(free: seq<Block>, done: seq<PCB>, p: PCB)
    ensures FreeAll(free, done + [p]) == AddAvail(FreeAll(free, done), p.memoryStartIdx, p.lengthCode)
  {
    assert (done + [p])[..|done|] == done;
  }

  lemma RunToEndCons(p: PCB, v: seq<PCB>)
    ensures RunToEnd([p] + v) == Then(Outcome(Lines(p.programCounter, p.End()), [Finished(p)]), RunToEnd(v))
  {
    assert ([p] + v)[1..] == v;
  }

  /** One step of executeReadyQueuePCBs keeps the run so far plus what is left equal to the whole run. */
  lemma RunToEndStepAgrees(ran: seq<int>, done: seq<PCB>, p: PCB, v: seq<PCB>, whole: Outcome)
    requires Then(Outcome(ran, done), RunToEnd([p] + v)) == whole
    ensures Then(Outcome(ran + Lines(p.programCounter, p.End()), done + [Finished(p)]), RunToEnd(v)) == whole
  {
    RunToEndCons(p, v);
    ThenAssoc(Outcome(ran, done), Outcome(Lines(p.programCounter, p.End()), [Finished(p)]), RunToEnd(v));
  }

  /** The head after its runRR turn. */
  function AfterTurn(p: PCB, n: int): (p': PCB)
    ensures p'.memoryStartIdx == p.memoryStartIdx && p'.lengthCode == p.lengthCode
  {
    p.(programCounter := p.programCounter + Turn(p, n))
  }

  /**
   * One pass of runRR keeps the run so far plus what is left equal to the
   * whole run, and the rest of the work shrinks.
   */
  lemma RoundRobinStepAgrees(ran: seq<int>, done: seq<PCB>, p: PCB, v: seq<PCB>, n: int, whole: Outcome)
    requires n >= 1 && Runnable(p) && AllRunnable(v)
    requires Then(Outcome(ran, done), RoundRobin([p] + v, n)) == whole
    ensures var p' := AfterTurn(p, n);
            var lines := Lines(p.programCounter, p'.programCounter);
            if p'.programCounter == p.End() then
              && Then(Outcome(ran + lines, done + [p']), RoundRobin(v, n)) == whole
              && Remaining(v) <= Remaining([p] + v)
            else
              && Runnable(p') && AllRunnable(v + [p'])
              && Then(Outcome(ran + lines, done), RoundRobin(v + [p'], n)) == whole
              && Remaining(v + [p']) < Remaining([p] + v)
  {
    var p' := AfterTurn(p, n);
    var lines := Lines(p.programCounter, p'.programCounter);
    RoundRobinUnfold(p, v, n);
    if p'.programCounter == p.End() {
      ThenAssoc(Outcome(ran, done), Outcome(lines, [p']), RoundRobin(v, n));
    } else {
      ThenAssoc(Outcome(ran, done), Outcome(lines, []), RoundRobin(v + [p'], n));
    }
  }

  /** One turn of the round-robin run: the head finishes and leaves, or goes to the back. */
  lemma RoundRobinUnfold(p: PCB, v: seq<PCB>, n: int)
    requires n >= 1 && Runnable(p) && AllRunnable(v)
    ensures var p' := AfterTurn(p, n);
            var lines := Lines(p.programCounter, p'.programCounter);
            if p'.programCounter == p.End() then
              && RoundRobin([p] + v, n) == Then(Outcome(lines, [p']), RoundRobin(v, n))
              && Remaining(v) <= Remaining([p] + v)
            else
              && Runnable(p') && AllRunnable(v + [p'])
              && RoundRobin([p] + v, n) == Then(Outcome(lines, []), RoundRobin(v + [p'], n))
              && Remaining(v + [p']) < Remaining([p] + v)
  {
    var q := [p] + v;
    assert q[0] == p && q[1..] == v;
    RemainingSplit(q);
    var p' := AfterTurn(p, n);
    if p'.programCounter != p.End() {
      RemainingAppend(v, [p']);
      assert AllRunnable(v + [p']) by {
        forall i | 0 <= i < |v + [p']|
          ensures Runnable((v + [p'])[i])
        {
          if i < |v| {
            assert (v + [p'])[i] == v[i];
          }
        }
      }
    }
  }

  /** The running PCB after its one-line time slice. */
  function Ticked(p: PCB): (p': PCB)
    ensures p'.memoryStartIdx == p.memoryStartIdx && p'.lengthCode == p.lengthCode
    ensures p'.programCounter == p.programCounter + 1
  {
    p.(programCounter := p.programCounter + 1)
  }

  /** What waits after one pass of runAging when the running PCB has not finished. */
  function AfterSlice(p': PCB, q': seq<PCB>): seq<PCB> {
    if q' != [] && q'[0].lengthScore < p'.lengthScore then SjfInsert(q', p') else [p'] + q'
  }

  /** After a slice that does not finish it, the running PCB and the waiting ones can all still run. */
  lemma AgingSliceRunnable(p: PCB, v: seq<PCB>)
    requires Runnable(p) && AllRunnable(v) && Ticked(p).programCounter != p.End()
    ensures Runnable(Ticked(p)) && AllRunnable(AfterSlice(Ticked(p), AgeAll(v)))
    ensures AfterSlice(Ticked(p), AgeAll(v)) != []
    ensures Remaining(AfterSlice(Ticked(p), AgeAll(v))) < Remaining([p] + v)
  {
    var q := [p] + v;
    assert q[0] == p && q[1..] == v;
    RemainingSplit(q);
    AgeAllRemaining(v);
    var p' := Ticked(p);
    var q' := AgeAll(v);
    if q' != [] && q'[0].lengthScore < p'.lengthScore {
      SjfInsertRemaining(q', p');
    } else {
      var r := [p'] + q';
      assert r[0] == p' && r[1..] == q';
      RemainingSplit(r);
      assert AllRunnable(r) by {
        forall i | 0 <= i < |r|
          ensures Runnable(r[i])
        {
          if i > 0 {
            assert r[i] == q'[i - 1];
          }
        }
      }
    }
  }

  /** runAging from a running PCB `p` and a waiting queue `v`, one pass unrolled. */
  lemma AgingUnfold(p: PCB, v: seq<PCB>)
    requires Runnable(p) && AllRunnable(v)
    ensures AllRunnable(AgeAll(v))
    ensures Ticked(p).programCounter != p.End() ==> AllRunnable(AfterSlice(Ticked(p), AgeAll(v)))
    ensures AgingStart([p] + v)
            == if Ticked(p).programCounter == p.End()
               then Then(Outcome([p.programCounter], [Ticked(p)]), AgingStart(AgeAll(v)))
               else Then(Outcome([p.programCounter], []), AgingStart(AfterSlice(Ticked(p), AgeAll(v))))
  {
    var q := [p] + v;
    assert q[0] == p && q[1..] == v;
    RemainingSplit(q);
    assert AgingStart(q) == AgingRun(p, v);
    var p' := Ticked(p);
    var q' := AgeAll(v);
    if p'.programCounter == p.End() {
      AgingRunEnds(p, v);
    } else {
      AgingSliceRunnable(p, v);
      var r := AfterSlice(p', q');
      RemainingSplit(r);
      if q' != [] && q'[0].lengthScore < p'.lengthScore {
        AgingRunPreempts(p, v, r);
        assert AgingStart(r) == AgingRun(r[0], r[1..]);
      } else {
        AgingRunKeeps(p, v);
        assert r[0] == p' && r[1..] == q';
        assert AgingStart(r) == AgingRun(p', q');
      }
    }
  }

  /**
   * One pass of runAging keeps the run so far plus what is left equal to the
   * whole run, and the rest of the work shrinks by the line that ran.
   */
  lemma AgingStepAgrees(ran: seq<int>, done: seq<PCB>, p: PCB, v: seq<PCB>, whole: Outcome)
    requires Runnable(p) && AllRunnable(v)
    requires Then(Outcome(ran, done), AgingStart([p] + v)) == whole
    ensures AllRunnable(AgeAll(v))
    ensures var p' := Ticked(p);
            if p'.programCounter == p.End() then
              && Then(Outcome(ran + [p.programCounter], done + [p']), AgingStart(AgeAll(v))) == whole
              && Remaining(AgeAll(v)) < Remaining([p] + v)
            else
              var r := AfterSlice(p', AgeAll(v));
              && Runnable(p') && AllRunnable(r) && r != []
              && Then(Outcome(ran + [p.programCounter], done), AgingStart(r)) == whole
              && Remaining(r) < Remaining([p] + v)
  {
    AgingUnfold(p, v);
    var p' := Ticked(p);
    if p'.programCounter == p.End() {
      var q := [p] + v;
      assert q[0] == p && q[1..] == v;
      RemainingSplit(q);
      AgeAllRemaining(v);
      ThenAssoc(Outcome(ran, done), Outcome([p.programCounter], [p']), AgingStart(AgeAll(v)));
    } else {
      AgingSliceRunnable(p, v);
      ThenAssoc(Outcome(ran, done), Outcome([p.programCounter], []), AgingStart(AfterSlice(p', AgeAll(v))));
    }
  }

  lemma ThenAssoc(a: Outcome, b: Outcome, c: Outcome)
    ensures Then(Then(a, b), c) == Then(a, Then(b, c))
  {
  }

  lemma ThenEmpty(a: Outcome)
    ensures Then(Outcome([], []), a) == a && Then(a, Outcome([], [])) == a
  {
  }

  // ----- What the policies promise -----

  /** Every remaining line of every queued script runs exactly once, and every PCB is freed at its end. */
  lemma {:induction false} RunToEndRunsEverything(q: seq<PCB>)
    requires AllRunnable(q)
    ensures |RunToEnd(q).trace| == Remaining(q)
    ensures |RunToEnd(q).done| == |q|
    ensures forall i :: 0 <= i < |q| ==> RunToEnd(q).done[i] == Finished(q[i])
  {
    if q != [] {
      RunToEndRunsEverything(q[1..]);
    }
  }

  /** Round robin runs as many lines as are left, and frees every PCB, at its end. */
  lemma {:induction false} RoundRobinRunsEverything(q: seq<PCB>, n: int)
    requires n >= 1 && AllRunnable(q)
    ensures |RoundRobin(q, n).trace| == Remaining(q)
    ensures |RoundRobin(q, n).done| == |q|
    ensures forall i :: 0 <= i < |RoundRobin(q, n).done| ==> Left(RoundRobin(q, n).done[i]) == 0
    decreases Remaining(q), |q|
  {
    if q != [] {
      var p := q[0];
      var k := Turn(p, n);
      var p' := p.(programCounter := p.programCounter + k);
      RemainingSplit(q);
      if p'.programCounter == p.End() {
        RoundRobinRunsEverything(q[1..], n);
      } else {
        RemainingAppend(q[1..], [p']);
        RoundRobinRunsEverything(q[1..] + [p'], n);
      }
    }
  }

  /** With turns at least as long as every script, round robin is first come first served. */
  lemma {:induction false} LongTurnsAreFcfs(q: seq<PCB>, n: int)
    requires n >= 1 && AllRunnable(q)
    requires forall i :: 0 <= i < |q| ==> Left(q[i]) <= n
    ensures RoundRobin(q, n) == RunToEnd(q)
  {
    if q != [] {
      RemainingSplit(q);
      LongTurnsAreFcfs(q[1..], n);
    }
  }

  /** A lone script under aging runs to its end in one go. */
  lemma {:induction false} AgingAlone(cur: PCB)
    requires Runnable(cur)
    ensures AgingRun(cur, []) == Outcome(Lines(cur.programCounter, cur.End()), [Finished(cur)])
    decreases Left(cur)
  {
    var cur' := cur.(programCounter := cur.programCounter + 1);
    if cur'.programCounter != cur.End() {
      AgingAlone(cur');
    }
  }

  /** Aging runs as many lines as are left, and frees every PCB, at its end. */
  lemma {:induction false} AgingRunsEverything(cur: PCB, q: seq<PCB>)
    requires Runnable(cur) && AllRunnable(q)
    ensures |AgingRun(cur, q).trace| == Remaining(q) + Left(cur)
    ensures |AgingRun(cur, q).done| == |q| + 1
    ensures forall i :: 0 <= i < |AgingRun(cur, q).done| ==> Left(AgingRun(cur, q).done[i]) == 0
    decreases Remaining(q) + Left(cur), 0
  {
    var cur', q' := Ticked(cur), AgeAll(q);
    var step := [cur.programCounter];
    if cur'.programCounter == cur.End() {
      AgingRunEnds(cur, q);
      AgingStartRunsEverything(q');
      var o := AgingStart(q');
      assert Accounted(o, Remaining(q'), |q'|);
      ThenAccounted(Outcome(step, [cur']), o, 1, 1, Remaining(q'), |q'|);
    } else if q' != [] && q'[0].lengthScore < cur'.lengthScore {
      var r := SjfInsert(q', cur');
      AgingRunPreempts(cur, q, r);
      AgingRunsEverything(r[0], r[1..]);
      var o := AgingRun(r[0], r[1..]);
      assert Accounted(o, Remaining(r[1..]) + Left(r[0]), |r[1..]| + 1);
      ThenAccounted(Outcome(step, []), o, 1, 0, Remaining(r[1..]) + Left(r[0]), |r[1..]| + 1);
    } else {
      AgingRunKeeps(cur, q);
      AgingRunsEverything(cur', q');
      var o := AgingRun(cur', q');
      assert Accounted(o, Remaining(q') + Left(cur'), |q'| + 1);
      ThenAccounted(Outcome(step, []), o, 1, 0, Remaining(q') + Left(cur'), |q'| + 1);
    }
    assert Accounted(AgingRun(cur, q), Remaining(q) + Left(cur), |q| + 1);
  }

  /** A pass of runAging that ends the running PCB: it is freed and the aged queue starts over. */
  lemma AgingRunEnds(cur: PCB, q: seq<PCB>)
    requires Runnable(cur) && AllRunnable(q) && Ticked(cur).programCounter == cur.End()
    ensures AllRunnable(AgeAll(q)) && Remaining(AgeAll(q)) == Remaining(q) && Left(cur) == 1
    ensures AgingRun(cur, q) == Then(Outcome([cur.programCounter], [Ticked(cur)]), AgingStart(AgeAll(q)))
  {
    AgeAllRemaining(q);
  }

  /** A pass of runAging that preempts: the running PCB goes back in by score and the head runs on. */
  lemma AgingRunPreempts(cur: PCB, q: seq<PCB>, r: seq<PCB>)
    requires Runnable(cur) && AllRunnable(q) && Ticked(cur).programCounter != cur.End()
    requires AgeAll(q) != [] && AgeAll(q)[0].lengthScore < Ticked(cur).lengthScore
    requires r == SjfInsert(AgeAll(q), Ticked(cur))
    ensures r != [] && Runnable(r[0]) && AllRunnable(r[1..]) && |r[1..]| == |q|
    ensures Remaining(r[1..]) + Left(r[0]) + 1 == Remaining(q) + Left(cur)
    ensures AgingRun(cur, q) == Then(Outcome([cur.programCounter], []), AgingRun(r[0], r[1..]))
  {
    AgeAllRemaining(q);
    SjfInsertRemaining(AgeAll(q), Ticked(cur));
    RemainingSplit(r);
  }

  /** A pass of runAging that keeps the running PCB on. */
  lemma AgingRunKeeps(cur: PCB, q: seq<PCB>)
    requires Runnable(cur) && AllRunnable(q) && Ticked(cur).programCounter != cur.End()
    requires !(AgeAll(q) != [] && AgeAll(q)[0].lengthScore < Ticked(cur).lengthScore)
    ensures Runnable(Ticked(cur)) && AllRunnable(AgeAll(q))
    ensures Remaining(AgeAll(q)) + Left(Ticked(cur)) + 1 == Remaining(q) + Left(cur)
    ensures AgingRun(cur, q) == Then(Outcome([cur.programCounter], []), AgingRun(Ticked(cur), AgeAll(q)))
  {
    AgeAllRemaining(q);
  }

  /** A run of `work` lines that frees `n` PCBs, each at its end. */
  ghost predicate Accounted(o: Outcome, work: int, n: int) {
    |o.trace| == work && |o.done| == n && forall i :: 0 <= i < |o.done| ==> Left(o.done[i]) == 0
  }

  /** Two runs in a row add up. */
  lemma ThenAccounted(a: Outcome, b: Outcome, wa: int, na: int, wb: int, nb: int)
    requires Accounted(a, wa, na) && Accounted(b, wb, nb)
    ensures Accounted(Then(a, b), wa + wb, na + nb)
  {
    var d := Then(a, b).done;
    forall i | 0 <= i < |d|
      ensures Left(d[i]) == 0
    {
      if i < |a.done| { assert d[i] == a.done[i]; } else { assert d[i] == b.done[i - |a.done|]; }
    }
  }

  lemma {:induction false} AgingStartRunsEverything(q: seq<PCB>)
    requires AllRunnable(q)
    ensures |AgingStart(q).trace| == Remaining(q)
    ensures |AgingStart(q).done| == |q|
    ensures forall i :: 0 <= i < |AgingStart(q).done| ==> Left(AgingStart(q).done[i]) == 0
    decreases Remaining(q), 1
  {
    if q != [] {
      RemainingSplit(q);
      AgingRunsEverything(q[0], q[1..]);
    }
  }

  /**
   * When aging preempts the running PCB, the PCB that runs next is the old
   * head (aged once), and the preempted PCB waits behind it.
   */
  lemma PreemptRunsOldHead(cur: PCB, q: seq<PCB>)
    requires q != [] && AgeAll(q)[0].lengthScore < cur.lengthScore
    ensures SjfInsert(AgeAll(q), cur)[0] == Age(q[0])
    ensures cur in SjfInsert(AgeAll(q), cur)[1..]
  {
    var q' := AgeAll(q);
    SjfInsertBehindSmallerHead(q', cur);
    var k := InsertPos(q', cur.lengthScore);
    assert SjfInsert(q', cur)[k] == cur;
  }

  // ----- Loading a script -----

  /** The PCB mem_load_script builds for a script of n lines stored from `start`. */
  function NewRecord(pid: int, start: int, n: nat): PCB {
    PCB(pid, start, n, n, start)
  }

  /** Where mem_load_script links the new PCB: at the head for a background load, in SJF order for SJF and AGING, else at the tail. */
  function Enqueue(policy: Policy, q: seq<PCB>, p: PCB): seq<PCB> {
    if policy == INVALID_POLICY then [p] + q
    else if policy == SJF || policy == AGING then SjfInsert(q, p)
    else q + [p]
  }

  /** The new PCB is added and nothing else changes; an SJF-ordered queue stays SJF-ordered. */
  lemma EnqueueAddsOne(policy: Policy, q: seq<PCB>, p: PCB)
    ensures multiset(Enqueue(policy, q, p)) == multiset(q) + multiset{p}
    ensures (policy == SJF || policy == AGING) && ScoreSorted(q) ==> ScoreSorted(Enqueue(policy, q, p))
    ensures policy == INVALID_POLICY ==> Enqueue(policy, q, p)[0] == p && Enqueue(policy, q, p)[1..] == q
    ensures policy in {FCFS, RR, RR30} ==> Enqueue(policy, q, p)[..|q|] == q && Enqueue(policy, q, p)[|q|] == p
  {
    if policy == SJF || policy == AGING {
      SjfInsertMultiset(q, p);
      if ScoreSorted(q) {
        SjfInsertSorted(q, p);
      }
    } else if policy != INVALID_POLICY {
      assert (q + [p])[..|q|] == q;
    }
  }

  /** mem_load_script as written: the PCB takes whatever allocateMemoryScript returned, -1 included. */
  function LoadAsWritten(free: seq<Block>, n: nat, pid: int): (p: PCB)
    ensures p.lengthCode == n && p.programCounter == p.memoryStartIdx
  {
    NewRecord(pid, Allocate(free, n).0, n)
  }

  /** A store in use but for three slots: loading a five line script gives a PCB whose lines start at -1, outside the store. */
  lemma LoadAsWrittenStartsOutside()
    ensures LoadAsWritten([Block(0, 3)], 5, 0).memoryStartIdx == -1
    ensures !InStore(LoadAsWritten([Block(0, 3)], 5, 0))
  {
    AllocateIsFirstFit([Block(0, 3)], 5);
  }

  // ----- Ownership of the store -----

  /** A script's lines: a non-empty range inside the store. */
  predicate InStore(p: PCB) {
    0 <= p.memoryStartIdx && 1 <= p.lengthCode && p.End() <= MEM_SIZE
  }

  /** Every live PCB owns its lines: inside the store, clear of the free list and of every other PCB's lines. */
  ghost predicate Owns(pcbs: map<nat, PCB>, free: seq<Block>) {
    && (forall h :: h in pcbs ==> InStore(pcbs[h]) && AvoidsRange(free, pcbs[h].memoryStartIdx, pcbs[h].lengthCode))
    && (forall h1, h2 :: h1 in pcbs && h2 in pcbs && h1 != h2 ==>
          Apart(pcbs[h1].memoryStartIdx, pcbs[h1].lengthCode, pcbs[h2].memoryStartIdx, pcbs[h2].lengthCode))
  }

  /** Freeing one PCB's lines keeps every other PCB's lines owned. */
  lemma OwnsRelease(pcbs: map<nat, PCB>, free: seq<Block>, h: nat)
    requires WellFormed(free) && Owns(pcbs, free) && h in pcbs
    ensures WellFormed(AddAvail(free, pcbs[h].memoryStartIdx, pcbs[h].lengthCode))
    ensures Owns(pcbs - {h}, AddAvail(free, pcbs[h].memoryStartIdx, pcbs[h].lengthCode))
  {
    var p := pcbs[h];
    AddAvailKeepsApart(free, p.memoryStartIdx, p.lengthCode);
    forall k | k in pcbs && k != h
      ensures Apart(p.memoryStartIdx, p.lengthCode, pcbs[k].memoryStartIdx, pcbs[k].lengthCode)
    {
    }
  }

  /** Allocating lines for a new PCB keeps every PCB's lines owned, the new one's included. */
  lemma OwnsAcquire(pcbs: map<nat, PCB>, free: seq<Block>, h: nat, p: PCB)
    requires WellFormed(free) && Owns(pcbs, free) && h !in pcbs && p.lengthCode >= 1
    requires Allocate(free, p.lengthCode).0 != -1 && p.memoryStartIdx == Allocate(free, p.lengthCode).0
    ensures WellFormed(Allocate(free, p.lengthCode).1)
    ensures Owns(pcbs[h := p], Allocate(free, p.lengthCode).1)
  {
    AllocateKeepsApart(free, p.lengthCode);
    var m := pcbs[h := p];
    forall k | k in pcbs
      ensures Apart(p.memoryStartIdx, p.lengthCode, pcbs[k].memoryStartIdx, pcbs[k].lengthCode)
    {
    }
  }

  /** PCBs that keep their lines keep owning them. */
  lemma OwnsSameLines(pcbs: map<nat, PCB>, pcbs': map<nat, PCB>, free: seq<Block>)
    requires Owns(pcbs, free) && pcbs'.Keys == pcbs.Keys
    requires forall h :: h in pcbs ==> pcbs'[h].memoryStartIdx == pcbs[h].memoryStartIdx && pcbs'[h].lengthCode == pcbs[h].lengthCode
    ensures Owns(pcbs', free)
  {
  }

  /** Both PCBs have the same lines. */
  predicate SameLines(p: PCB, p': PCB) {
    p'.memoryStartIdx == p.memoryStartIdx && p'.lengthCode == p.lengthCode
  }

  /**
   * Every live PCB owns its lines and is either queued or the one running
   * (`cur`; NIL when none is), and every PCB but the running one is runnable.
   */
  ghost predicate Resident(pcbs: map<nat, PCB>, c: seq<nat>, free: seq<Block>, cur: int) {
    && Owns(pcbs, free)
    && (forall h: nat :: h in pcbs <==> h in c || h == cur)
    && (forall h: nat :: h in pcbs && h != cur ==> Runnable(pcbs[h]))
  }

  /** A new runnable PCB that owns its lines and is linked in keeps every live PCB resident. */
  lemma ResidentAdmit(pcbs: map<nat, PCB>, c: seq<nat>, c': seq<nat>, free: seq<Block>, h: nat, p: PCB)
    requires Owns(pcbs[h := p], free) && Runnable(p)
    requires forall k :: k in pcbs <==> k in c
    requires forall k :: k in pcbs ==> Runnable(pcbs[k])
    requires forall x :: x in c' <==> x in c || x == h
    ensures Resident(pcbs[h := p], c', free, NIL)
  {
  }

  /** popHeadFromPCBQueue: the old head becomes the running PCB. */
  lemma ResidentPop(pcbs: map<nat, PCB>, c: seq<nat>, free: seq<Block>)
    requires Resident(pcbs, c, free, NIL) && c != []
    ensures Resident(pcbs, c[1..], free, c[0])
  {
    assert c == [c[0]] + c[1..];
  }

  /** detachPCBFromQueue: the detached PCB becomes the running one. */
  lemma ResidentDetach(pcbs: map<nat, PCB>, c: seq<nat>, c': seq<nat>, free: seq<Block>, h: nat)
    requires Resident(pcbs, c, free, NIL) && h in c
    requires forall x :: x in c' <==> x in c && x != h
    ensures Resident(pcbs, c', free, h)
  {
  }

  /** Rewriting the running PCB's counters. */
  lemma ResidentSet(pcbs: map<nat, PCB>, c: seq<nat>, free: seq<Block>, h: nat, p: PCB)
    requires Resident(pcbs, c, free, h) && h in pcbs && SameLines(pcbs[h], p)
    ensures Resident(pcbs[h := p], c, free, h)
  {
    OwnsSameLines(pcbs, pcbs[h := p], free);
  }

  /** Aging rewrites scores only. */
  lemma ResidentAge(pcbs: map<nat, PCB>, pcbs': map<nat, PCB>, c: seq<nat>, free: seq<Block>, cur: int)
    requires Resident(pcbs, c, free, cur) && pcbs'.Keys == pcbs.Keys
    requires forall h :: h in pcbs ==> pcbs'[h] == Age(pcbs[h]) || pcbs'[h] == pcbs[h]
    ensures Resident(pcbs', c, free, cur)
  {
    OwnsSameLines(pcbs, pcbs', free);
  }

  /** The running PCB goes back to the queue, still runnable. */
  lemma ResidentRequeue(pcbs: map<nat, PCB>, c: seq<nat>, c': seq<nat>, free: seq<Block>, h: nat)
    requires Resident(pcbs, c, free, h) && h in pcbs && Runnable(pcbs[h])
    requires forall x :: x in c' <==> x in c || x == h
    ensures Resident(pcbs, c', free, NIL)
  {
  }

  /** deallocateMemoryScript on the running PCB: its lines go back to the free list. */
  lemma ResidentRelease(pcbs: map<nat, PCB>, c: seq<nat>, free: seq<Block>, h: nat)
    requires WellFormed(free) && Resident(pcbs, c, free, h) && h in pcbs && h !in c
    ensures WellFormed(AddAvail(free, pcbs[h].memoryStartIdx, pcbs[h].lengthCode))
    ensures Resident(pcbs - {h}, c, AddAvail(free, pcbs[h].memoryStartIdx, pcbs[h].lengthCode), NIL)
  {
    OwnsRelease(pcbs, free, h);
  }

  lemma RunnableView(c: seq<nat>, m: map<nat, PCB>)
    requires forall i :: 0 <= i < |c| ==> c[i] in m
    requires forall h :: h in m ==> Runnable(m[h])
    ensures AllRunnable(ViewOf(c, m))
  {
  }

  /** Every record of a resident queue, and the running one, can still run. */
  lemma ResidentRunnable(pcbs: map<nat, PCB>, c: seq<nat>, free: seq<Block>, cur: int)
    requires Resident(pcbs, c, free, cur) && (forall i :: 0 <= i < |c| ==> c[i] in pcbs)
    requires cur == NIL || (cur >= 0 && cur as nat in pcbs && Runnable(pcbs[cur as nat]))
    ensures AllRunnable(ViewOf(c, pcbs))
    ensures cur != NIL ==> AllRunnable([pcbs[cur as nat]] + ViewOf(c, pcbs))
  {
    RunnableView(c, pcbs);
  }

  lemma LinesSnoc(lo: int, hi: int)
    requires lo <= hi
    ensures Lines(lo, hi + 1) == Lines(lo, hi) + [hi]
  {
  }

  /** The policy selectSchedule runs. */
  function Schedule(policy: Policy, q: seq<PCB>): Outcome
    requires AllRunnable(q)
  {
    match policy
    case FCFS => RunToEnd(q)
    case SJF => RunToEnd(q)
    case RR => RoundRobin(q, 2)
    case RR30 => RoundRobin(q, 30)
    case AGING => AgingStart(q)
    case INVALID_POLICY => Outcome([], [])
  }

  // ----- The scheduler state -----

  class Scheduler {
    const queue: ReadyQueue
    const memory: ScriptsMemory
    /** The store indices of the lines run so far. */
    var trace: seq<int>

    /** At rest every live PCB is queued, runnable and owns its lines. */
    ghost predicate Valid()
      reads this, queue, memory
    {
      queue.Valid() && memory.Valid() && Resident(queue.pcbs, queue.Contents, memory.free, NIL)
    }

    /**
     * Inside a policy loop: `h` runs, `todo` is what is still to run, and the
     * lines `ran` and the PCBs `done` are what has run and been freed since
     * the loop started (with trace0 and free0).
     */
    ghost predicate Midway(h: int, todo: seq<PCB>, ran: seq<int>, done: seq<PCB>, trace0: seq<int>, free0: seq<Block>)
      reads this, queue, memory
    {
      Running(h) && todo == Pending(h) && AllRunnable(todo)
      && trace == trace0 + ran && memory.free == FreeAll(free0, done)
    }

    /** The PCBs still to run inside a policy loop: the running one (unless NIL) and then the queue. */
    ghost function Pending(h: int): seq<PCB>
      reads queue
      requires queue.Valid() && (h == NIL || (h >= 0 && h as nat in queue.pcbs))
    {
      if h == NIL then queue.View() else [queue.pcbs[h as nat]] + queue.View()
    }

    /** scheduler_init and scripts_memory_init. */
    constructor ()
      ensures Valid() && fresh(queue) && fresh(memory) && fresh(memory.code)
      ensures trace == [] && queue.Contents == [] && memory.free == [Block(0, MEM_SIZE)]
      ensures forall i :: 0 <= i < memory.code.Length ==> memory.code[i] == None
    {
      queue := new ReadyQueue();
      memory := new ScriptsMemory();
      trace := [];
    }

    /**
     * mem_load_script, with a failed allocation reported as -1 instead of
     * storing the script from index -1. `script` is the file's lines as
     * read (None for a NULL file); `pid` stands for rand().
     */
    method MemLoadScript(script: Option<seq<string>>, policy: Policy, pid: int) returns (r: int)
      requires Valid()
      requires script.Some? ==> 1 <= |script.value| <= MEM_SIZE
      modifies queue, memory, memory.code
      ensures Valid()
      ensures r == -1 <==> script == None || Allocate(old(memory.free), |script.value|).0 == -1
      ensures r != -1 ==> r == 0
      ensures r == -1 ==> queue.View() == old(queue.View()) && memory.free == old(memory.free)
      ensures r == -1 ==> forall i :: 0 <= i < memory.code.Length ==> memory.code[i] == old(memory.code[i])
      ensures r == 0 ==>
        var n := |script.value|;
        var start := Allocate(old(memory.free), n).0;
        && memory.free == Allocate(old(memory.free), n).1
        && queue.View() == Enqueue(policy, old(queue.View()), NewRecord(pid, start, n))
        && (forall i :: 0 <= i < n ==> memory.code[start + i] == Some(script.value[i]))
        && (forall i :: 0 <= i < memory.code.Length && !(start <= i < start + n) ==> memory.code[i] == old(memory.code[i]))
    {
      if script == None {
        return -1;
      }
      var lines := script.value;
      var scriptLength := |lines|;
      ghost var free0 := memory.free;
      var memIdx := memory.AllocateMemoryScript(scriptLength);
      if memIdx == -1 {
        return -1;
      }
      StoreLines(memIdx, lines);
      var p := NewRecord(pid, memIdx, scriptLength);
      OwnsAcquire(queue.pcbs, free0, queue.nextHandle, p);
      Admit(p, policy);
      r := 0;
    }

    /** The copy loop of mem_load_script: the script's lines go to consecutive slots from `memIdx`. */
    method StoreLines(memIdx: nat, lines: seq<string>)
      requires memory.Valid() && memIdx + |lines| <= MEM_SIZE
      modifies memory.code
      ensures forall i :: 0 <= i < |lines| ==> memory.code[memIdx + i] == Some(lines[i])
      ensures forall i :: 0 <= i < memory.code.Length && !(memIdx <= i < memIdx + |lines|) ==> memory.code[i] == old(memory.code[i])
    {
      var lineIdx := memIdx;
      while lineIdx < memIdx + |lines|
        invariant memIdx <= lineIdx <= memIdx + |lines|
        invariant forall i :: memIdx <= i < lineIdx ==> memory.code[i] == Some(lines[i - memIdx])
        invariant forall i :: 0 <= i < memory.code.Length && !(memIdx <= i < lineIdx) ==> memory.code[i] == old(memory.code[i])
      {
        memory.UpdateInstruction(lineIdx, Some(lines[lineIdx - memIdx]));
        lineIdx := lineIdx + 1;
      }
      forall i | 0 <= i < |lines|
        ensures memory.code[memIdx + i] == Some(lines[i])
      {
      }
    }

    /** The linking step of mem_load_script: a new PCB, whose lines are already owned, joins the queue. */
    method Admit(p: PCB, policy: Policy)
      requires queue.Valid() && memory.Valid() && Runnable(p)
      requires Owns(queue.pcbs[queue.nextHandle := p], memory.free)
      requires forall h :: h in queue.pcbs <==> h in queue.Contents
      requires forall h :: h in queue.pcbs ==> Runnable(queue.pcbs[h])
      modifies queue
      ensures Valid()
      ensures queue.View() == Enqueue(policy, old(queue.View()), p)
    {
      ghost var m0, c0 := queue.pcbs, queue.Contents;
      var h := queue.NewPCB(p);
      assert queue.pcbs == m0[h := p];
      LinkByPolicy(h, policy);
      ResidentAdmit(m0, c0, queue.Contents, memory.free, h, p);
    }

    /** The policy switch of mem_load_script that links the new PCB `h` into the queue. */
    method LinkByPolicy(h: nat, policy: Policy)
      requires queue.Valid() && h in queue.pcbs && h !in queue.Contents
      modifies queue
      ensures queue.Valid() && queue.pcbs == old(queue.pcbs)
      ensures forall x :: x in queue.Contents <==> x in old(queue.Contents) || x == h
      ensures queue.View() == Enqueue(policy, old(queue.View()), queue.pcbs[h])
    {
      if policy == INVALID_POLICY {
        // the inline head insertion relinks exactly as placePCBAtStartOfDLL
        queue.PlaceAtStart(h);
      } else if policy == SJF || policy == AGING {
        queue.InsertFromTailSJF(h);
      } else {
        // the inline tail insertion relinks exactly as placePCBAtEndOfDLL
        queue.PlaceAtEnd(h);
      }
    }

    /** deallocateMemoryScript: the PCB's lines go back to the free list and the PCB is freed. */
    method DeallocateMemoryScript(h: nat)
      requires queue.Valid() && memory.Valid() && Owns(queue.pcbs, memory.free)
      requires h in queue.pcbs && h !in queue.Contents
      modifies queue, memory
      ensures queue.Valid() && memory.Valid()
      ensures queue.pcbs == old(queue.pcbs) - {h}
      ensures queue.Contents == old(queue.Contents) && queue.View() == old(queue.View())
      ensures memory.free == AddAvail(old(memory.free), old(queue.pcbs)[h].memoryStartIdx, old(queue.pcbs)[h].lengthCode)
    {
      var p := queue.pcbs[h];
      OwnsRelease(queue.pcbs, memory.free, h);
      memory.AddMemoryAvailability(p.memoryStartIdx, p.lengthCode);
      queue.FreePCB(h);
    }

    /** removePCBFromQueue: detach a queued PCB, then free it and its lines. */
    method RemovePCBFromQueue(h: nat)
      requires Valid() && h in queue.Contents
      modifies queue, memory
      ensures Valid()
      ensures queue.Contents == RemoveAt(old(queue.Contents), IndexOf(old(queue.Contents), h))
      ensures queue.pcbs == old(queue.pcbs) - {h}
      ensures memory.free == AddAvail(old(memory.free), old(queue.pcbs)[h].memoryStartIdx, old(queue.pcbs)[h].lengthCode)
    {
      ghost var c0 := queue.Contents;
      queue.Detach(h);
      ResidentDetach(queue.pcbs, c0, queue.Contents, memory.free, h);
      ResidentRelease(queue.pcbs, queue.Contents, memory.free, h);
      DeallocateMemoryScript(h);
    }

    /**
     * The line loop of executeReadyQueuePCBs and runRR: run the lines of `p`
     * from its counter up to, not including, `stop` or its end, whichever
     * comes first, moving the counter along.
     */
    method RunLines(p: PCB, stop: int) returns (p': PCB)
      requires p.programCounter <= p.End() && p.programCounter <= stop
      modifies this
      ensures p' == p.(programCounter := if stop < p.End() then stop else p.End())
      ensures trace == old(trace) + Lines(p.programCounter, p'.programCounter)
    {
      p' := p;
      var lineIdx := p.programCounter;
      while lineIdx < p.memoryStartIdx + p.lengthCode && lineIdx < stop
        invariant p.programCounter <= lineIdx <= (if stop < p.End() then stop else p.End())
        invariant p' == p.(programCounter := lineIdx)
        invariant trace == old(trace) + Lines(p.programCounter, lineIdx)
      {
        // convertInputToOneLiners(fetchInstruction(lineIdx))
        trace := trace + [lineIdx];
        LinesSnoc(p.programCounter, lineIdx);
        lineIdx := lineIdx + 1;
        p' := p'.(programCounter := p'.programCounter + 1);
      }
    }

    /** Inside a policy loop: `h` is the running PCB (NIL once the queue is drained). */
    ghost predicate Running(h: int)
      reads this, queue, memory
    {
      && queue.Valid() && memory.Valid()
      && (h == NIL || (h >= 0 && h as nat in queue.pcbs && h as nat !in queue.Contents && Runnable(queue.pcbs[h as nat])))
      && Resident(queue.pcbs, queue.Contents, memory.free, h)
      && (h == NIL ==> queue.Contents == [])
    }

    /** popHeadFromPCBQueue as the policy loops use it: the head becomes the running PCB. */
    method Pop() returns (h: int)
      requires Valid()
      modifies queue
      ensures Running(h) && queue.pcbs == old(queue.pcbs)
      ensures Pending(h) == old(queue.View()) && AllRunnable(Pending(h))
    {
      if queue.Contents != [] {
        ResidentPop(queue.pcbs, queue.Contents, memory.free);
      }
      h := queue.PopHead();
      ResidentRunnable(queue.pcbs, queue.Contents, memory.free, h);
    }

    /** The running PCB `h` runs its lines up to `stop` (or its end, if sooner). */
    method RunTurn(h: nat, stop: int) returns (p': PCB)
      requires Running(h) && queue.pcbs[h].programCounter <= stop
      modifies this, queue
      ensures queue.Valid() && queue.Contents == old(queue.Contents) && queue.View() == old(queue.View())
      ensures h in queue.pcbs && queue.pcbs[h] == p'
      ensures var p := old(queue.pcbs)[h];
              p' == p.(programCounter := if stop < p.End() then stop else p.End())
      ensures Resident(queue.pcbs, queue.Contents, memory.free, h)
      ensures trace == old(trace) + Lines(old(queue.pcbs)[h].programCounter, p'.programCounter)
    {
      var p := queue.pcbs[h];
      p' := RunLines(p, stop);
      ResidentSet(queue.pcbs, queue.Contents, memory.free, h, p');
      queue.SetPCB(h, p');
    }

    /** The running PCB `h` has lines left: it goes back to the tail and the head is popped. */
    method Requeue(h: nat) returns (h': int)
      requires queue.Valid() && memory.Valid() && h in queue.pcbs && h !in queue.Contents
      requires Resident(queue.pcbs, queue.Contents, memory.free, h) && Runnable(queue.pcbs[h])
      modifies queue
      ensures Running(h') && AllRunnable(Pending(h'))
      ensures Pending(h') == old(queue.View()) + [old(queue.pcbs)[h]]
    {
      ResidentRequeue(queue.pcbs, queue.Contents, queue.Contents + [h], memory.free, h);
      queue.PlaceAtEnd(h);
      h' := Pop();
    }

    /** One pass of the executeReadyQueuePCBs loop: run the running PCB to its end, free it, pop. */
    method FcfsStep(h: nat) returns (h': int)
      requires Running(h)
      modifies this, queue, memory
      ensures Running(h') && AllRunnable(Pending(h')) && Pending(h') == old(queue.View())
      ensures trace == old(trace) + Lines(old(queue.pcbs)[h].programCounter, old(queue.pcbs)[h].End())
      ensures memory.free == AddAvail(old(memory.free), old(queue.pcbs)[h].memoryStartIdx, old(queue.pcbs)[h].lengthCode)
    {
      var p := queue.pcbs[h];
      var p' := RunTurn(h, p.memoryStartIdx + p.lengthCode);
      h' := FinishRunning(h);
    }

    /** executeReadyQueuePCBs: pop each PCB in turn, run it to its end and free it. */
    method ExecuteReadyQueuePCBs()
      requires Valid()
      modifies this, queue, memory
      ensures Valid() && queue.Contents == []
      ensures trace == old(trace) + RunToEnd(old(queue.View())).trace
      ensures memory.free == FreeAll(old(memory.free), RunToEnd(old(queue.View())).done)
    {
      ghost var q0, free0 := queue.View(), memory.free;
      ghost var ran: seq<int>, done: seq<PCB> := [], [];
      ghost var whole := RunToEnd(q0);
      var h := Pop();
      ghost var todo := q0;
      ThenEmpty(whole);
      while h != NIL
        invariant Midway(h, todo, ran, done, old(trace), free0)
        invariant Then(Outcome(ran, done), RunToEnd(todo)) == whole
        decreases |todo|
      {
        h, todo, ran, done := FcfsPass(h as nat, todo, ran, done, old(trace), free0, whole);
      }
      assert todo == [];
      ThenEmpty(Outcome(ran, done));
    }

    /** One pass of the executeReadyQueuePCBs loop, seen from where the loop started. */
    method FcfsPass(h: nat, ghost todo: seq<PCB>, ghost ran: seq<int>, ghost done: seq<PCB>,
                    ghost trace0: seq<int>, ghost free0: seq<Block>, ghost whole: Outcome)
      returns (h': int, ghost todo': seq<PCB>, ghost ran': seq<int>, ghost done': seq<PCB>)
      requires Midway(h, todo, ran, done, trace0, free0)
      requires Then(Outcome(ran, done), RunToEnd(todo)) == whole
      modifies this, queue, memory
      ensures Midway(h', todo', ran', done', trace0, free0)
      ensures Then(Outcome(ran', done'), RunToEnd(todo')) == whole
      ensures |todo'| < |todo|
    {
      ghost var v := queue.View();
      ghost var p := queue.pcbs[h];
      ghost var lines := Lines(p.programCounter, p.End());
      assert todo == [p] + v;
      RunToEndStepAgrees(ran, done, p, v, whole);
      AppendAssoc(trace0, ran, lines);
      h' := FcfsStep(h);
      assert memory.free == AddAvail(FreeAll(free0, done), p.memoryStartIdx, p.lengthCode);
      FreeAllAppend(free0, done, Finished(p));
      ran', done', todo' := ran + lines, done + [Finished(p)], v;
    }

    /** One pass of the runRR loop: a turn of at most n lines, then free or requeue, then pop. */
    method RoundRobinStep(h: nat, n: int) returns (h': int)
      requires Running(h) && n >= 1
      modifies this, queue, memory
      ensures Running(h') && AllRunnable(Pending(h'))
      ensures var p := old(queue.pcbs)[h];
              var p' := AfterTurn(p, n);
              && trace == old(trace) + Lines(p.programCounter, p'.programCounter)
              && if p'.programCounter == p.End() then
                   memory.free == AddAvail(old(memory.free), p.memoryStartIdx, p.lengthCode)
                   && Pending(h') == old(queue.View())
                 else
                   memory.free == old(memory.free) && Pending(h') == old(queue.View()) + [p']
    {
      var p := queue.pcbs[h];
      var p' := RunTurn(h, p.programCounter + n);
      assert p' == AfterTurn(p, n);
      h' := EndTurn(h);
    }

    /** The end of a runRR turn: free the running PCB if it has reached its end, else requeue it; then pop. */
    method EndTurn(h: nat) returns (h': int)
      requires queue.Valid() && memory.Valid() && h in queue.pcbs && h !in queue.Contents
      requires Resident(queue.pcbs, queue.Contents, memory.free, h)
      requires queue.pcbs[h].memoryStartIdx <= queue.pcbs[h].programCounter <= queue.pcbs[h].End()
      modifies queue, memory
      ensures Running(h') && AllRunnable(Pending(h'))
      ensures var p := old(queue.pcbs)[h];
              if p.programCounter == p.End() then
                memory.free == AddAvail(old(memory.free), p.memoryStartIdx, p.lengthCode)
                && Pending(h') == old(queue.View())
              else
                memory.free == old(memory.free) && Pending(h') == old(queue.View()) + [p]
    {
      var p := queue.pcbs[h];
      if p.programCounter == p.memoryStartIdx + p.lengthCode {
        h' := FinishRunning(h);
      } else {
        h' := Requeue(h);
      }
    }

    /** runRR(lineNumber): the PCBs take turns of lineNumber lines until all have finished. */
    method RunRR(lineNumber: int)
      requires Valid() && lineNumber >= 1
      modifies this, queue, memory
      ensures Valid() && queue.Contents == []
      ensures trace == old(trace) + RoundRobin(old(queue.View()), lineNumber).trace
      ensures memory.free == FreeAll(old(memory.free), RoundRobin(old(queue.View()), lineNumber).done)
    {
      ghost var q0, free0 := queue.View(), memory.free;
      ghost var ran: seq<int>, done: seq<PCB> := [], [];
      var h := Pop();
      ghost var todo := q0;
      ghost var whole := RoundRobin(q0, lineNumber);
      ThenEmpty(whole);
      while h != NIL
        invariant Midway(h, todo, ran, done, old(trace), free0)
        invariant Then(Outcome(ran, done), RoundRobin(todo, lineNumber)) == whole
        decreases Remaining(todo), |todo|
      {
        h, todo, ran, done := RoundRobinPass(h as nat, lineNumber, todo, ran, done, old(trace), free0, whole);
      }
      assert todo == [];
      ThenEmpty(Outcome(ran, done));
    }

    /** One pass of the runRR loop, seen from where the loop started. */
    method RoundRobinPass(h: nat, lineNumber: int, ghost todo: seq<PCB>, ghost ran: seq<int>, ghost done: seq<PCB>,
                          ghost trace0: seq<int>, ghost free0: seq<Block>, ghost whole: Outcome)
      returns (h': int, ghost todo': seq<PCB>, ghost ran': seq<int>, ghost done': seq<PCB>)
      requires lineNumber >= 1 && Midway(h, todo, ran, done, trace0, free0)
      requires Then(Outcome(ran, done), RoundRobin(todo, lineNumber)) == whole
      modifies this, queue, memory
      ensures Midway(h', todo', ran', done', trace0, free0)
      ensures Then(Outcome(ran', done'), RoundRobin(todo', lineNumber)) == whole
      ensures Remaining(todo') < Remaining(todo) || (Remaining(todo') == Remaining(todo) && |todo'| < |todo|)
    {
      ghost var v := queue.View();
      ghost var p := queue.pcbs[h];
      ghost var p' := AfterTurn(p, lineNumber);
      ghost var lines := Lines(p.programCounter, p'.programCounter);
      assert todo == [p] + v;
      RoundRobinStepAgrees(ran, done, p, v, lineNumber, whole);
      AppendAssoc(trace0, ran, lines);
      h' := RoundRobinStep(h, lineNumber);
      if p'.programCounter == p.End() {
        FreeAllAppend(free0, done, p');
        ran', done', todo' := ran + lines, done + [p'], v;
      } else {
        ran', done', todo' := ran + lines, done, v + [p'];
      }
    }

    /** The time slice of one runAging pass: the running PCB runs the line at its counter. */
    method RunSlice(h: nat)
      requires Running(h)
      modifies this, queue
      ensures queue.Valid() && queue.Contents == old(queue.Contents) && queue.View() == old(queue.View())
      ensures h in queue.pcbs && queue.pcbs[h] == Ticked(old(queue.pcbs)[h])
      ensures Resident(queue.pcbs, queue.Contents, memory.free, h)
      ensures trace == old(trace) + [old(queue.pcbs)[h].programCounter]
    {
      var p := queue.pcbs[h];
      // convertInputToOneLiners(fetchInstruction(programCounter))
      trace := trace + [p.programCounter];
      var p' := Ticked(p);
      ResidentSet(queue.pcbs, queue.Contents, memory.free, h, p');
      queue.SetPCB(h, p');
    }

    /** The aging pass of runAging: every waiting PCB ages; the running one does not. */
    method AgeWaiting(h: nat)
      requires queue.Valid() && h in queue.pcbs && h !in queue.Contents
      requires Resident(queue.pcbs, queue.Contents, memory.free, h)
      modifies queue
      ensures queue.Valid() && queue.Contents == old(queue.Contents)
      ensures h in queue.pcbs && queue.pcbs[h] == old(queue.pcbs)[h]
      ensures Resident(queue.pcbs, queue.Contents, memory.free, h)
      ensures queue.View() == AgeAll(old(queue.View()))
    {
      ghost var pcbs0 := queue.pcbs;
      queue.AgeQueue();
      ResidentAge(pcbs0, queue.pcbs, queue.Contents, memory.free, h);
    }

    /** The running PCB `h` has reached its end: free it and pop the next one. */
    method FinishRunning(h: nat) returns (h': int)
      requires queue.Valid() && memory.Valid() && h in queue.pcbs && h !in queue.Contents
      requires Resident(queue.pcbs, queue.Contents, memory.free, h)
      modifies queue, memory
      ensures Running(h') && AllRunnable(Pending(h')) && Pending(h') == old(queue.View())
      ensures memory.free == AddAvail(old(memory.free), old(queue.pcbs)[h].memoryStartIdx, old(queue.pcbs)[h].lengthCode)
    {
      ResidentRelease(queue.pcbs, queue.Contents, memory.free, h);
      DeallocateMemoryScript(h);
      h' := Pop();
    }

    /** The running PCB `h` has lines left: it gives way when the head now scores strictly less. */
    method MaybePreempt(h: nat) returns (h': int)
      requires queue.Valid() && memory.Valid() && h in queue.pcbs && h !in queue.Contents
      requires Resident(queue.pcbs, queue.Contents, memory.free, h) && Runnable(queue.pcbs[h])
      modifies queue
      ensures Running(h') && AllRunnable(Pending(h'))
      ensures Pending(h') == AfterSlice(old(queue.pcbs)[h], old(queue.View()))
    {
      var hd := queue.Head();
      if hd != NIL && queue.pcbs[hd as nat].lengthScore < queue.pcbs[h].lengthScore {
        assert queue.View()[0] == queue.pcbs[hd as nat];
        h' := Preempt(h);
      } else {
        h' := h;
        ResidentRunnable(queue.pcbs, queue.Contents, memory.free, h);
      }
    }

    /** The preempting branch of runAging: `h` goes back in by score and the head runs. */
    method Preempt(h: nat) returns (h': int)
      requires queue.Valid() && memory.Valid() && h in queue.pcbs && h !in queue.Contents
      requires Resident(queue.pcbs, queue.Contents, memory.free, h) && Runnable(queue.pcbs[h])
      modifies queue
      ensures Running(h') && AllRunnable(Pending(h'))
      ensures Pending(h') == SjfInsert(old(queue.View()), old(queue.pcbs)[h])
    {
      ghost var c0 := queue.Contents;
      queue.InsertFromTailSJF(h);
      ResidentRequeue(queue.pcbs, c0, queue.Contents, memory.free, h);
      h' := Pop();
    }

    /** One pass of the runAging loop: the time slice, then free, preempt or keep running. */
    method AgingStep(h: nat) returns (h': int)
      requires Running(h)
      modifies this, queue, memory
      ensures Running(h') && AllRunnable(Pending(h'))
      ensures var p' := Ticked(old(queue.pcbs)[h]);
              && trace == old(trace) + [old(queue.pcbs)[h].programCounter]
              && if p'.programCounter == p'.End() then
                   memory.free == AddAvail(old(memory.free), p'.memoryStartIdx, p'.lengthCode)
                   && Pending(h') == AgeAll(old(queue.View()))
                 else
                   memory.free == old(memory.free) && Pending(h') == AfterSlice(p', AgeAll(old(queue.View())))
    {
      ghost var p0, v0, f0 := queue.pcbs[h], queue.View(), memory.free;
      RunSlice(h);
      AgeWaiting(h);
      assert queue.pcbs[h] == Ticked(p0) && queue.View() == AgeAll(v0) && memory.free == f0;
      h' := EndSlice(h);
    }

    /** The end of a runAging pass: free the running PCB `h` at its end, else preempt or keep it. */
    method EndSlice(h: nat) returns (h': int)
      requires queue.Valid() && memory.Valid() && h in queue.pcbs && h !in queue.Contents
      requires Resident(queue.pcbs, queue.Contents, memory.free, h)
      requires queue.pcbs[h].memoryStartIdx <= queue.pcbs[h].programCounter <= queue.pcbs[h].End()
      modifies queue, memory
      ensures Running(h') && AllRunnable(Pending(h'))
      ensures var p := old(queue.pcbs)[h];
              if p.programCounter == p.End() then
                memory.free == AddAvail(old(memory.free), p.memoryStartIdx, p.lengthCode)
                && Pending(h') == old(queue.View())
              else
                memory.free == old(memory.free) && Pending(h') == AfterSlice(p, old(queue.View()))
    {
      var p := queue.pcbs[h];
      if p.programCounter == p.memoryStartIdx + p.lengthCode {
        h' := FinishRunning(h);
      } else {
        h' := MaybePreempt(h);
      }
    }

    /**
     * runAging: the running PCB runs one line at a time while every waiting
     * PCB ages, and gives way to the head once the head scores strictly less.
     */
    method RunAging()
      requires Valid()
      modifies this, queue, memory
      ensures Valid() && queue.Contents == []
      ensures trace == old(trace) + AgingStart(old(queue.View())).trace
      ensures memory.free == FreeAll(old(memory.free), AgingStart(old(queue.View())).done)
    {
      ghost var q0, free0 := queue.View(), memory.free;
      ghost var ran: seq<int>, done: seq<PCB> := [], [];
      var h := Pop();
      ghost var todo := q0;
      ghost var whole := AgingStart(q0);
      ThenEmpty(whole);
      while h != NIL
        invariant Midway(h, todo, ran, done, old(trace), free0)
        invariant Then(Outcome(ran, done), AgingStart(todo)) == whole
        decreases Remaining(todo)
      {
        h, todo, ran, done := AgingPass(h as nat, todo, ran, done, old(trace), free0, whole);
      }
      assert todo == [];
      ThenEmpty(Outcome(ran, done));
    }

    /** One pass of the runAging loop, seen from where the loop started. */
    method AgingPass(h: nat, ghost todo: seq<PCB>, ghost ran: seq<int>, ghost done: seq<PCB>,
                     ghost trace0: seq<int>, ghost free0: seq<Block>, ghost whole: Outcome)
      returns (h': int, ghost todo': seq<PCB>, ghost ran': seq<int>, ghost done': seq<PCB>)
      requires Midway(h, todo, ran, done, trace0, free0)
      requires Then(Outcome(ran, done), AgingStart(todo)) == whole
      modifies this, queue, memory
      ensures Midway(h', todo', ran', done', trace0, free0)
      ensures Then(Outcome(ran', done'), AgingStart(todo')) == whole
      ensures Remaining(todo') < Remaining(todo)
    {
      ghost var v := queue.View();
      ghost var p := queue.pcbs[h];
      ghost var p' := Ticked(p);
      assert todo == [p] + v;
      AgingStepAgrees(ran, done, p, v, whole);
      AppendAssoc(trace0, ran, [p.programCounter]);
      h' := AgingStep(h);
      if p'.programCounter == p.End() {
        FreeAllAppend(free0, done, p');
        ran', done', todo' := ran + [p.programCounter], done + [p'], AgeAll(v);
      } else {
        ran', done', todo' := ran + [p.programCounter], done, AfterSlice(p', AgeAll(v));
      }
    }

    /** selectSchedule: run the policy's loop; the background sentinel runs nothing. */
    method SelectSchedule(policy: Policy)
      requires Valid()
      modifies this, queue, memory
      ensures Valid()
      ensures trace == old(trace) + Schedule(policy, old(queue.View())).trace
      ensures memory.free == FreeAll(old(memory.free), Schedule(policy, old(queue.View())).done)
      ensures policy != INVALID_POLICY ==> queue.Contents == []
      ensures policy == INVALID_POLICY ==> queue.View() == old(queue.View())
    {
      match policy
      case FCFS => ExecuteReadyQueuePCBs();
      case SJF => ExecuteReadyQueuePCBs();
      case RR => RunRR(2);
      case RR30 => RunRR(30);
      case AGING => RunAging();
      case INVALID_POLICY =>
        assert trace == trace + [];
    }
  }
}
