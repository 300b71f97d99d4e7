/**
 * The ready queue of the A1 scheduler: a doubly linked list of process
 * control blocks with head and tail pointers.
 *
 * Memory is an arena: a PCB pointer is a handle (a natural number), NULL is
 * NIL, and the `pcbs`, `next` and `prev` maps give each live handle its
 * record and its two links. `Contents` is the ghost view of the list from
 * head to tail.
 */
module ReadyQueue {

  const NIL: int := -1

  /** struct PCB without its two links. `lengthScore` is the job length estimate used by SJF and aging. */
  datatype PCB = PCB(pid: int, memoryStartIdx: int, lengthCode: nat, lengthScore: int, programCounter: int) {
    /** One past the last line of the script. */
    function End(): int { memoryStartIdx + lengthCode }
  }

  /** The records of a sequence of handles. */
  function ViewOf(hs: seq<nat>, m: map<nat, PCB>): (v: seq<PCB>)
    requires forall i :: 0 <= i < |hs| ==> hs[i] in m
    ensures |v| == |hs| && forall i :: 0 <= i < |hs| ==> v[i] == m[hs[i]]
  {
    seq(|hs|, i requires 0 <= i < |hs| => m[hs[i]])
  }

  /**
   * Where insertPCBFromTailSJF links a PCB of the given score: just after the
   * last PCB, scanning from the tail, whose score is at most the new one; at
   * the head when there is none.
   */
  function InsertPos(q: seq<PCB>, score: int): (k: nat)
    ensures k <= |q|
    ensures forall i :: k <= i < |q| ==> score < q[i].lengthScore
    ensures k > 0 ==> q[k - 1].lengthScore <= score
  {
    if q == [] then 0
    else if score >= q[|q| - 1].lengthScore then |q|
    else InsertPos(q[..|q| - 1], score)
  }

  /** One step of the scan from the tail: the insertion point within the first j records. */
  lemma InsertPosPrefix(q: seq<PCB>, j: nat, score: int)
    requires 0 < j <= |q|
    ensures score >= q[j - 1].lengthScore ==> InsertPos(q[..j], score) == j
    ensures score < q[j - 1].lengthScore ==> InsertPos(q[..j], score) == InsertPos(q[..j - 1], score)
  {
    assert q[..j][..j - 1] == q[..j - 1];
  }

  /** The queue after insertPCBFromTailSJF, as a sequence of records. */
  function SjfInsert(q: seq<PCB>, p: PCB): seq<PCB> {
    var k := InsertPos(q, p.lengthScore);
    q[..k] + [p] + q[k..]
  }

  /** Shortest job first: scores never decrease from head to tail. */
  ghost predicate ScoreSorted(q: seq<PCB>) {
    forall i, j :: 0 <= i < j < |q| ==> q[i].lengthScore <= q[j].lengthScore
  }

  /** One aging step on a waiting PCB: its score drops by one unless it is already zero. */
  function Age(p: PCB): PCB {
    if p.lengthScore != 0 then p.(lengthScore := p.lengthScore - 1) else p
  }

  /** The records after aging the first i queued handles c of m. */
  ghost function AgedUpTo(m: map<nat, PCB>, c: seq<nat>, i: nat): (r: map<nat, PCB>)
    requires i <= |c| && forall k :: 0 <= k < |c| ==> c[k] in m
    ensures r.Keys == m.Keys
  {
    if i == 0 then m else AgedUpTo(m, c, i - 1)[c[i - 1] := Age(m[c[i - 1]])]
  }

  /** After the first i queued handles are aged, exactly those records have aged, once. */
  lemma {:induction false} AgedValues(m: map<nat, PCB>, c: seq<nat>, i: nat)
    requires i <= |c| && forall k :: 0 <= k < |c| ==> c[k] in m
    ensures forall h :: h in m ==> AgedUpTo(m, c, i)[h] == if h in c[..i] then Age(m[h]) else m[h]
  {
    if i > 0 {
      AgedValues(m, c, i - 1);
      forall h | h in m
        ensures AgedUpTo(m, c, i)[h] == if h in c[..i] then Age(m[h]) else m[h]
      {
        assert c[..i] == c[..i - 1] + [c[i - 1]];
        assert h in c[..i] <==> h in c[..i - 1] || h == c[i - 1];
      }
    }
  }

  /** The record at position i of a list without repeats is still unaged once the first i are aged. */
  lemma AgedStep(m: map<nat, PCB>, c: seq<nat>, i: nat)
    requires Distinct(c) && i < |c| && forall k :: 0 <= k < |c| ==> c[k] in m
    ensures c[i] in AgedUpTo(m, c, i) && AgedUpTo(m, c, i)[c[i]] == m[c[i]]
    ensures m[c[i]].lengthScore == 0 ==> AgedUpTo(m, c, i + 1) == AgedUpTo(m, c, i)
  {
    AgedValues(m, c, i);
    assert c[i] !in c[..i];
    if m[c[i]].lengthScore == 0 {
      var a := AgedUpTo(m, c, i);
      assert a[c[i] := Age(m[c[i]])] == a;
    }
  }

  /** Once every queued handle is aged, the queued records are aged and no other record is. */
  lemma AgedAll(m: map<nat, PCB>, c: seq<nat>)
    requires forall k :: 0 <= k < |c| ==> c[k] in m
    ensures forall h :: h in m ==> AgedUpTo(m, c, |c|)[h] == if h in c then Age(m[h]) else m[h]
    ensures ViewOf(c, AgedUpTo(m, c, |c|)) == AgeAll(ViewOf(c, m))
  {
    AgedValues(m, c, |c|);
    assert c[..|c|] == c;
    assert ViewOf(c, AgedUpTo(m, c, |c|)) == AgeAll(ViewOf(c, m));
  }

  /** Every waiting PCB aged once. */
  function AgeAll(q: seq<PCB>): (r: seq<PCB>)
    ensures |r| == |q| && forall i :: 0 <= i < |q| ==> r[i] == Age(q[i])
  {
    seq(|q|, i requires 0 <= i < |q| => Age(q[i]))
  }

  /** The list with position i dropped. */
  function RemoveAt<T>(s: seq<T>, i: nat): seq<T>
    requires i < |s|
  {
    s[..i] + s[i + 1..]
  }

  /** Dropping position i of a list without repeats removes that element and no other. */
  lemma RemoveAtDrops(c: seq<nat>, i: nat)
    requires Distinct(c) && i < |c|
    ensures c[i] !in RemoveAt(c, i)
    ensures forall x :: x in RemoveAt(c, i) <==> x in c && x != c[i]
  {
    var c' := RemoveAt(c, i);
    forall j | 0 <= j < |c'|
      ensures c'[j] != c[i]
    {
      if j < i { assert c'[j] == c[j]; } else { assert c'[j] == c[j + 1]; }
    }
    forall x | x in c && x != c[i]
      ensures x in c'
    {
      var j :| 0 <= j < |c| && c[j] == x;
      if j < i { assert c'[j] == x; } else { assert c'[j - 1] == x; }
    }
  }

  /** The records of a list of handles, split at the first handle. */
  lemma ViewOfFront(c: seq<nat>, m: map<nat, PCB>)
    requires c != [] && forall i :: 0 <= i < |c| ==> c[i] in m
    ensures ViewOf(c[1..], m) == ViewOf(c, m)[1..]
    ensures [m[c[0]]] + ViewOf(c[1..], m) == ViewOf(c, m)
  {
    assert ViewOf(c[1..], m) == ViewOf(c, m)[1..];
  }

  /** The position of x in s. */
  function IndexOf<T(==)>(s: seq<T>, x: T): (k: nat)
    requires x in s
    ensures k < |s| && s[k] == x && forall j :: 0 <= j < k ==> s[j] != x
  {
    if s[0] == x then 0 else 1 + IndexOf(s[1..], x)
  }

  // ----- Properties of the SJF insertion -----

  /**
   * In a sorted queue the insertion point splits the queue: every PCB before
   * it scores at most the new one and every PCB after it more, so equal
   * scores keep their arrival order.
   */
  lemma InsertPosSplits(q: seq<PCB>, score: int)
    requires ScoreSorted(q)
    ensures forall i :: 0 <= i < InsertPos(q, score) ==> q[i].lengthScore <= score
    ensures forall i :: InsertPos(q, score) <= i < |q| ==> score < q[i].lengthScore
  {
    var k := InsertPos(q, score);
    if k > 0 {
      assert forall i :: 0 <= i < k ==> q[i].lengthScore <= q[k - 1].lengthScore;
    }
  }

  /** SJF insertion keeps a queue sorted and adds exactly the new PCB. */
  lemma SjfInsertSorted(q: seq<PCB>, p: PCB)
    requires ScoreSorted(q)
    ensures ScoreSorted(SjfInsert(q, p))
    ensures multiset(SjfInsert(q, p)) == multiset(q) + multiset{p}
  {
    var k := InsertPos(q, p.lengthScore);
    InsertPosSplits(q, p.lengthScore);
    var r := SjfInsert(q, p);
    assert forall i {:trigger r[i]} :: 0 <= i < |r| ==> r[i] == if i < k then q[i] else if i == k then p else q[i - 1];
    forall i, j | 0 <= i < j < |r|
      ensures r[i].lengthScore <= r[j].lengthScore
    {
      if i < k && j > k {
        assert q[i].lengthScore <= q[j - 1].lengthScore;
      }
    }
    SjfInsertMultiset(q, p);
  }

  lemma SjfInsertMultiset(q: seq<PCB>, p: PCB)
    ensures multiset(SjfInsert(q, p)) == multiset(q) + multiset{p}
  {
    var k := InsertPos(q, p.lengthScore);
    assert q == q[..k] + q[k..];
    assert multiset(q) == multiset(q[..k]) + multiset(q[k..]);
  }

  /** A PCB scoring more than the head of a non-empty queue is not linked in front of it. */
  lemma SjfInsertBehindSmallerHead(q: seq<PCB>, p: PCB)
    requires q != [] && q[0].lengthScore < p.lengthScore
    ensures InsertPos(q, p.lengthScore) > 0
    ensures SjfInsert(q, p)[0] == q[0]
  {
  }

  /** Inserting into the empty queue gives the one-element queue. */
  lemma SjfInsertEmpty(p: PCB)
    ensures SjfInsert([], p) == [p]
  {
  }

  /** Aging keeps a sorted queue sorted. */
  lemma AgeAllKeepsOrder(q: seq<PCB>)
    requires ScoreSorted(q)
    ensures ScoreSorted(AgeAll(q))
  {
  }

  /** Aging lowers a positive score by one and never makes a score negative; it changes nothing but the score. */
  lemma AgeNonNegative(p: PCB)
    requires p.lengthScore >= 0
    ensures Age(p).lengthScore >= 0
    ensures Age(p).lengthScore == if p.lengthScore == 0 then 0 else p.lengthScore - 1
    ensures Age(p).(lengthScore := p.lengthScore) == p
  {
  }

  // ----- The linked list as a value -----

  ghost predicate Distinct(c: seq<nat>) {
    forall i, j :: 0 <= i < j < |c| ==> c[i] != c[j]
  }

  /**
   * The handles c, in order, form the doubly linked list with the given head
   * and tail: each node's next is its successor and each node's prev its
   * predecessor, with NIL past either end.
   */
  ghost predicate Linked(c: seq<nat>, head: int, tail: int, next: map<nat, int>, prev: map<nat, int>) {
    && (forall i :: 0 <= i < |c| ==> c[i] in next && c[i] in prev)
    && Distinct(c)
    && (c == [] ==> head == NIL && tail == NIL)
    && (c != [] ==> head == c[0] && tail == c[|c| - 1] && prev[c[0]] == NIL && next[c[|c| - 1]] == NIL)
    && (forall i, k {:trigger next[c[i]], c[k]} :: 0 <= i && k == i + 1 && k < |c| ==> next[c[i]] == c[k])
    && (forall i, k {:trigger prev[c[k]], c[i]} :: 0 <= i && k == i + 1 && k < |c| ==> prev[c[k]] == c[i])
  }

  /** Reading the links of the node at position i. */
  lemma LinkedAt(c: seq<nat>, head: int, tail: int, next: map<nat, int>, prev: map<nat, int>, i: nat)
    requires Linked(c, head, tail, next, prev) && i < |c|
    ensures c[i] in next && next[c[i]] == if i + 1 < |c| then c[i + 1] else NIL
    ensures c[i] in prev && prev[c[i]] == if i > 0 then c[i - 1] else NIL
  {
    if i + 1 < |c| { assert next[c[i]] == c[i + 1]; }
    if i > 0 { assert prev[c[i]] == c[i - 1]; }
  }

  /** The links of a node outside the list do not matter: overwriting them keeps the list intact. */
  lemma LinkedReset(c: seq<nat>, head: int, tail: int, next: map<nat, int>, prev: map<nat, int>, h: nat, x: int, y: int)
    requires Linked(c, head, tail, next, prev) && h !in c
    ensures Linked(c, head, tail, next[h := x], prev[h := y])
  {
    forall i, k | 0 <= i && k == i + 1 && k < |c|
      ensures next[h := x][c[i]] == c[k] && prev[h := y][c[k]] == c[i]
    {
      assert next[c[i]] == c[k] && prev[c[k]] == c[i];
    }
  }

  /** Dropping the links of a node outside the list keeps it intact. */
  lemma LinkedDropKey(c: seq<nat>, head: int, tail: int, next: map<nat, int>, prev: map<nat, int>, h: nat)
    requires Linked(c, head, tail, next, prev) && h !in c
    ensures Linked(c, head, tail, next - {h}, prev - {h})
  {
    forall i, k | 0 <= i && k == i + 1 && k < |c|
      ensures (next - {h})[c[i]] == c[k] && (prev - {h})[c[k]] == c[i]
    {
      assert next[c[i]] == c[k] && prev[c[k]] == c[i];
    }
  }

  lemma LinkedSingleton(h: nat, next: map<nat, int>, prev: map<nat, int>)
    ensures Linked([h], h, h, next[h := NIL], prev[h := NIL])
  {
  }

  lemma LinkedAppend(c: seq<nat>, h: nat, head: int, tail: int, next: map<nat, int>, prev: map<nat, int>)
    requires Linked(c, head, tail, next, prev) && c != [] && h !in c
    ensures tail >= 0
    ensures Linked(c + [h], head, h, next[tail as nat := h][h := NIL], prev[h := tail])
  {
    var c' := c + [h];
    var n := next[tail as nat := h][h := NIL];
    var p := prev[h := tail];
    var L := |c|;
    forall i | 0 <= i < |c'|
      ensures c'[i] == if i < L then c[i] else h
    {
    }
    forall i, k | 0 <= i && k == i + 1 && k < |c'|
      ensures n[c'[i]] == c'[k] && p[c'[k]] == c'[i]
    {
      if k < L {
        assert c[i] != c[L - 1] && c[i] != h && c[k] != h;
        assert next[c[i]] == c[k] && prev[c[k]] == c[i];
      }
    }
    assert c[0] != h;
    forall a, b | 0 <= a < b < |c'|
      ensures c'[a] != c'[b]
    {
    }
  }

  lemma LinkedPrepend(c: seq<nat>, h: nat, head: int, tail: int, next: map<nat, int>, prev: map<nat, int>)
    requires Linked(c, head, tail, next, prev) && c != [] && h !in c
    ensures head >= 0
    ensures Linked([h] + c, h, tail, next[h := head], prev[head as nat := h][h := NIL])
  {
    var c' := [h] + c;
    var n := next[h := head];
    var p := prev[head as nat := h][h := NIL];
    forall i | 0 <= i < |c'|
      ensures c'[i] == if i == 0 then h else c[i - 1]
    {
    }
    forall i, k | 0 <= i && k == i + 1 && k < |c'|
      ensures n[c'[i]] == c'[k] && p[c'[k]] == c'[i]
    {
      if i > 0 {
        assert c[i - 1] != h && c[k - 1] != h && c[k - 1] != c[0];
        assert next[c[i - 1]] == c[k - 1] && prev[c[k - 1]] == c[i - 1];
      }
    }
    assert c[|c| - 1] != h;
    forall a, b | 0 <= a < b < |c'|
      ensures c'[a] != c'[b]
    {
    }
  }

  lemma LinkedRemoveOnly(c: seq<nat>, head: int, tail: int, next: map<nat, int>, prev: map<nat, int>)
    requires Linked(c, head, tail, next, prev) && |c| == 1
    ensures next[c[0]] == NIL
    ensures Linked([], NIL, NIL, next[c[0] := NIL], prev[c[0] := NIL])
  {
  }

  lemma LinkedRemoveHead(c: seq<nat>, head: int, tail: int, next: map<nat, int>, prev: map<nat, int>)
    requires Linked(c, head, tail, next, prev) && |c| >= 2
    ensures next[head as nat] == c[1]
    ensures Linked(c[1..], c[1], tail, next[c[0] := NIL], prev[c[1] := NIL][c[0] := NIL])
  {
    LinkedPopFront(c, head, tail, next, prev);
    assert c[0] !in c[1..] by {
      forall j | 0 <= j < |c| - 1
        ensures c[1..][j] != c[0]
      {
        assert c[1..][j] == c[j + 1];
      }
    }
    LinkedReset(c[1..], c[1], tail, next, prev[c[1] := NIL], c[0], NIL, NIL);
  }

  lemma LinkedPopFront(c: seq<nat>, head: int, tail: int, next: map<nat, int>, prev: map<nat, int>)
    requires Linked(c, head, tail, next, prev) && |c| >= 2
    ensures next[head as nat] == c[1]
    ensures Linked(c[1..], c[1], tail, next, prev[c[1] := NIL])
  {
    var c' := c[1..];
    var p := prev[c[1] := NIL];
    assert next[c[0]] == c[1];
    forall i | 0 <= i < |c'|
      ensures c'[i] == c[i + 1]
    {
    }
    forall i, k | 0 <= i && k == i + 1 && k < |c'|
      ensures next[c'[i]] == c'[k] && p[c'[k]] == c'[i]
    {
      assert c[k + 1] != c[1];
      assert next[c[i + 1]] == c[k + 1] && prev[c[k + 1]] == c[i + 1];
    }
    assert c'[|c'| - 1] == c[|c| - 1];
    forall a, b | 0 <= a < b < |c'|
      ensures c'[a] != c'[b]
    {
      assert c'[a] == c[a + 1] && c'[b] == c[b + 1];
    }
  }

  lemma LinkedRemoveTail(c: seq<nat>, head: int, tail: int, next: map<nat, int>, prev: map<nat, int>)
    requires Linked(c, head, tail, next, prev) && |c| >= 2
    ensures prev[tail as nat] == c[|c| - 2]
    ensures Linked(c[..|c| - 1], head, c[|c| - 2], next[c[|c| - 2] := NIL][c[|c| - 1] := NIL], prev[c[|c| - 1] := NIL])
  {
    LinkedPopBack(c, head, tail, next, prev);
    var L := |c|;
    assert c[L - 1] !in c[..L - 1] by {
      forall j | 0 <= j < L - 1
        ensures c[j] != c[L - 1]
      {
      }
    }
    LinkedReset(c[..L - 1], head, c[L - 2], next[c[L - 2] := NIL], prev, c[L - 1], NIL, NIL);
  }

  lemma LinkedPopBack(c: seq<nat>, head: int, tail: int, next: map<nat, int>, prev: map<nat, int>)
    requires Linked(c, head, tail, next, prev) && |c| >= 2
    ensures prev[tail as nat] == c[|c| - 2]
    ensures Linked(c[..|c| - 1], head, c[|c| - 2], next[c[|c| - 2] := NIL], prev)
  {
    var L := |c|;
    var c' := c[..L - 1];
    var n := next[c[L - 2] := NIL];
    assert prev[c[L - 1]] == c[L - 2];
    forall i | 0 <= i < |c'|
      ensures c'[i] == c[i]
    {
    }
    forall i, k | 0 <= i && k == i + 1 && k < |c'|
      ensures n[c'[i]] == c'[k] && prev[c'[k]] == c'[i]
    {
      assert c[i] != c[L - 2];
      assert next[c[i]] == c[k] && prev[c[k]] == c[i];
    }
    forall a, b | 0 <= a < b < |c'|
      ensures c'[a] != c'[b]
    {
      assert c'[a] == c[a] && c'[b] == c[b];
    }
  }

  lemma LinkedRemoveMiddle(c: seq<nat>, i: nat, head: int, tail: int, next: map<nat, int>, prev: map<nat, int>)
    requires Linked(c, head, tail, next, prev) && 0 < i < |c| - 1
    ensures prev[c[i]] == c[i - 1] && next[c[i]] == c[i + 1]
    ensures Linked(RemoveAt(c, i), head, tail, next[c[i - 1] := c[i + 1]][c[i] := NIL], prev[c[i + 1] := c[i - 1]][c[i] := NIL])
  {
    LinkedUnlink(c, i, head, tail, next, prev);
    LinkedAt(c, head, tail, next, prev, i);
    RemoveAtDrops(c, i);
    LinkedReset(RemoveAt(c, i), head, tail, next[c[i - 1] := c[i + 1]], prev[c[i + 1] := c[i - 1]], c[i], NIL, NIL);
  }

  lemma LinkedUnlink(c: seq<nat>, i: nat, head: int, tail: int, next: map<nat, int>, prev: map<nat, int>)
    requires Linked(c, head, tail, next, prev) && 0 < i < |c| - 1
    ensures Linked(RemoveAt(c, i), head, tail, next[c[i - 1] := c[i + 1]], prev[c[i + 1] := c[i - 1]])
  {
    var c' := RemoveAt(c, i);
    var n := next[c[i - 1] := c[i + 1]];
    var p := prev[c[i + 1] := c[i - 1]];
    forall j | 0 <= j < |c'|
      ensures c'[j] == if j < i then c[j] else c[j + 1]
    {
    }
    forall j, k | 0 <= j && k == j + 1 && k < |c'|
      ensures n[c'[j]] == c'[k] && p[c'[k]] == c'[j]
    {
      if j < i - 1 {
        assert c[j] != c[i - 1] && c[k] != c[i + 1];
        assert next[c[j]] == c[k] && prev[c[k]] == c[j];
      } else if j == i - 1 {
        assert c'[j] == c[i - 1] && c'[k] == c[i + 1];
      } else {
        assert c'[j] == c[j + 1] && c'[k] == c[k + 1];
        assert c[j + 1] != c[i - 1] && c[k + 1] != c[i + 1];
        assert next[c[j + 1]] == c[k + 1] && prev[c[k + 1]] == c[j + 1];
      }
    }
    assert c'[|c'| - 1] == c[|c| - 1] && c'[0] == c[0];
    assert c[|c| - 1] != c[i - 1] && c[0] != c[i + 1];
    forall a, b | 0 <= a < b < |c'|
      ensures c'[a] != c'[b]
    {
      var a', b' := if a < i then a else a + 1, if b < i then b else b + 1;
      assert c'[a] == c[a'] && c'[b] == c[b'] && a' < b';
    }
  }

  /** The links insertPCBFromTailSJF writes to put h just after position j-1, at the tail or not. */
  lemma LinkedAfter(c: seq<nat>, j: nat, h: nat, head: int, tail: int, pcbs: map<nat, PCB>,
                    next: map<nat, int>, prev: map<nat, int>, nextHandle: nat)
    requires QueueInvariant(c, head, tail, pcbs, next, prev, nextHandle) && 0 < j <= |c| && h in pcbs && h !in c
    ensures c[j - 1] in next
    ensures var cur, n := c[j - 1], next[c[j - 1]];
            n != NIL ==> n >= 0 && n as nat in prev
    ensures var cur, n := c[j - 1], next[c[j - 1]];
            QueueInvariant(c[..j] + [h] + c[j..], head, if cur == tail then h else tail, pcbs,
                           next[h := n][cur := h],
                           if n != NIL then prev[h := cur][n as nat := h] else prev[h := cur], nextHandle)
  {
    LinkedAt(c, head, tail, next, prev, j - 1);
    InsertedKnown(c, j, h, pcbs);
    var cur := c[j - 1];
    if j == |c| {
      assert cur == tail;
      LinkedAppend(c, h, head, tail, next, prev);
      assert next[tail as nat := h][h := NIL] == next[h := NIL][cur := h];
      assert c[..j] + [h] + c[j..] == c + [h];
    } else {
      assert cur != tail by {
        assert c[j - 1] != c[|c| - 1];
      }
      LinkedInsertBetween(c, j, h, head, tail, next, prev);
      assert c[j] in pcbs;
      assert next[h := c[j]][c[j - 1] := h] == next[h := next[cur]][cur := h];
      assert prev[h := c[j - 1]][c[j] := h] == prev[h := cur][c[j] := h];
    }
  }

  lemma LinkedInsertBetween(c: seq<nat>, j: nat, h: nat, head: int, tail: int, next: map<nat, int>, prev: map<nat, int>)
    requires Linked(c, head, tail, next, prev) && 0 < j < |c| && h !in c
    ensures Linked(c[..j] + [h] + c[j..], head, tail,
                   next[h := c[j]][c[j - 1] := h], prev[h := c[j - 1]][c[j] := h])
  {
    var c' := c[..j] + [h] + c[j..];
    var n := next[h := c[j]][c[j - 1] := h];
    var p := prev[h := c[j - 1]][c[j] := h];
    forall i | 0 <= i < |c'|
      ensures c'[i] == if i < j then c[i] else if i == j then h else c[i - 1]
    {
    }
    forall i, k | 0 <= i && k == i + 1 && k < |c'|
      ensures n[c'[i]] == c'[k] && p[c'[k]] == c'[i]
    {
      if k < j {
        assert c[i] != c[j - 1] && c[i] != h && c[k] != c[j] && c[k] != h;
        assert next[c[i]] == c[k] && prev[c[k]] == c[i];
      } else if k == j {
        assert c'[i] == c[j - 1] && c'[k] == h && h != c[j];
      } else if i == j {
        assert c'[i] == h && c'[k] == c[j] && h != c[j - 1];
      } else {
        assert c'[i] == c[i - 1] && c'[k] == c[k - 1];
        assert c[i - 1] != c[j - 1] && c[i - 1] != h && c[k - 1] != c[j] && c[k - 1] != h;
        assert next[c[i - 1]] == c[k - 1] && prev[c[k - 1]] == c[i - 1];
      }
    }
    assert c'[|c'| - 1] == c[|c| - 1] && c'[0] == c[0];
    assert c[|c| - 1] != c[j - 1] && c[0] != c[j] && c[0] != h && c[|c| - 1] != h;
    InsertedDistinct(c, j, h);
  }

  /** Inserting a new handle keeps the handles distinct. */
  lemma InsertedDistinct(c: seq<nat>, j: nat, h: nat)
    requires Distinct(c) && j <= |c| && h !in c
    ensures Distinct(c[..j] + [h] + c[j..])
  {
    var c' := c[..j] + [h] + c[j..];
    forall a, b | 0 <= a < b < |c'|
      ensures c'[a] != c'[b]
    {
      if a != j && b != j {
        var a', b' := if a < j then a else a - 1, if b < j then b else b - 1;
        assert c'[a] == c[a'] && c'[b] == c[b'] && a' < b';
      }
    }
  }

  lemma LinkedRotate(c: seq<nat>, head: int, tail: int, next: map<nat, int>, prev: map<nat, int>)
    requires Linked(c, head, tail, next, prev) && |c| >= 2
    ensures head >= 0 && tail >= 0 && next[head as nat] == c[1]
    ensures Linked(c[1..] + [c[0]], c[1], c[0], next[tail as nat := c[0]][c[0] := NIL], prev[c[1] := NIL][c[0] := tail])
  {
    var L := |c|;
    var c' := c[1..] + [c[0]];
    var n := next[tail as nat := c[0]][c[0] := NIL];
    var p := prev[c[1] := NIL][c[0] := tail];
    assert next[c[0]] == c[1];
    forall i | 0 <= i < L
      ensures c'[i] == if i < L - 1 then c[i + 1] else c[0]
    {
    }
    forall i, k | 0 <= i && k == i + 1 && k < L
      ensures n[c'[i]] == c'[k] && p[c'[k]] == c'[i]
    {
      if k < L - 1 {
        assert c'[i] == c[i + 1] && c'[k] == c[k + 1];
        assert c[i + 1] != c[0] && c[i + 1] != c[L - 1] && c[k + 1] != c[0] && c[k + 1] != c[1];
        assert next[c[i + 1]] == c[k + 1] && prev[c[k + 1]] == c[i + 1];
      } else {
        assert c'[i] == c[L - 1] && c'[k] == c[0] && c[L - 1] != c[0];
      }
    }
    assert c'[0] == c[1] && c'[L - 1] == c[0] && c[1] != c[0];
    forall a, b | 0 <= a < b < L
      ensures c'[a] != c'[b]
    {
      if b < L - 1 {
        assert c'[a] == c[a + 1] && c'[b] == c[b + 1];
      } else {
        assert c'[a] == c[a + 1] && c'[b] == c[0];
      }
    }
  }

  /** Linking a known handle in keeps every queued handle known. */
  lemma InsertedKnown(c: seq<nat>, j: nat, h: nat, m: map<nat, PCB>)
    requires j <= |c| && h in m && forall i :: 0 <= i < |c| ==> c[i] in m
    ensures forall i :: 0 <= i < |c[..j] + [h] + c[j..]| ==> (c[..j] + [h] + c[j..])[i] in m
  {
    var c' := c[..j] + [h] + c[j..];
    forall i | 0 <= i < |c'|
      ensures c'[i] in m
    {
      if i < j { assert c'[i] == c[i]; } else if i > j { assert c'[i] == c[i - 1]; }
    }
  }

  /** Linking a handle in anywhere adds that handle and no other. */
  lemma InsertMembers(c: seq<nat>, j: nat, h: nat)
    requires j <= |c|
    ensures forall x :: x in c[..j] + [h] + c[j..] <==> x in c || x == h
  {
    assert c == c[..j] + c[j..];
  }

  /** The records of a list with one handle linked in at position j. */
  lemma ViewOfInsert(c: seq<nat>, j: nat, h: nat, m: map<nat, PCB>)
    requires j <= |c| && h in m && forall i :: 0 <= i < |c| ==> c[i] in m
    ensures ViewOf(c[..j] + [h] + c[j..], m) == ViewOf(c, m)[..j] + [m[h]] + ViewOf(c, m)[j..]
  {
    var c' := c[..j] + [h] + c[j..];
    assert forall i {:trigger c'[i]} :: 0 <= i < |c'| ==> c'[i] == if i < j then c[i] else if i == j then h else c[i - 1];
  }

  /**
   * The ready queue invariant: every record has its two links, every handle
   * was issued, and the links thread the queued handles c from head to tail.
   */
  ghost predicate QueueInvariant(c: seq<nat>, head: int, tail: int, pcbs: map<nat, PCB>,
                                 next: map<nat, int>, prev: map<nat, int>, nextHandle: nat) {
    && next.Keys == pcbs.Keys && prev.Keys == pcbs.Keys
    && (forall h :: h in pcbs ==> h < nextHandle)
    && (forall i :: 0 <= i < |c| ==> c[i] in pcbs)
    && Linked(c, head, tail, next, prev)
  }

  /** The links placePCBAtStartOfDLL writes, into an empty queue or before its head. */
  lemma PlacedFirst(c: seq<nat>, h: nat, head: int, tail: int, pcbs: map<nat, PCB>,
                    next: map<nat, int>, prev: map<nat, int>, nextHandle: nat)
    requires QueueInvariant(c, head, tail, pcbs, next, prev, nextHandle) && h in pcbs && h !in c
    ensures ViewOf([h] + c, pcbs) == [pcbs[h]] + ViewOf(c, pcbs)
    ensures forall x :: x in [h] + c <==> x in c || x == h
    ensures head == NIL ==> QueueInvariant([h] + c, h, h, pcbs, next[h := NIL], prev[h := NIL], nextHandle)
    ensures head != NIL ==> head >= 0 && QueueInvariant([h] + c, h, tail, pcbs, next[h := head], prev[head as nat := h][h := NIL], nextHandle)
  {
    ViewOfInsert(c, 0, h, pcbs);
    InsertedKnown(c, 0, h, pcbs);
    assert c[..0] + [h] + c[0..] == [h] + c;
    if head == NIL {
      assert c == [];
      LinkedSingleton(h, next, prev);
      assert [h] + c == [h];
    } else {
      LinkedPrepend(c, h, head, tail, next, prev);
    }
  }

  /** The links placePCBAtEndOfDLL writes, into an empty queue or after its tail. */
  lemma PlacedLast(c: seq<nat>, h: nat, head: int, tail: int, pcbs: map<nat, PCB>,
                   next: map<nat, int>, prev: map<nat, int>, nextHandle: nat)
    requires QueueInvariant(c, head, tail, pcbs, next, prev, nextHandle) && h in pcbs && h !in c
    ensures ViewOf(c + [h], pcbs) == ViewOf(c, pcbs) + [pcbs[h]]
    ensures forall x :: x in c + [h] <==> x in c || x == h
    ensures head == NIL ==> QueueInvariant(c + [h], h, h, pcbs, next[h := NIL], prev[h := NIL], nextHandle)
    ensures head != NIL ==> tail >= 0 && QueueInvariant(c + [h], head, h, pcbs, next[tail as nat := h][h := NIL], prev[h := tail], nextHandle)
  {
    ViewOfInsert(c, |c|, h, pcbs);
    InsertedKnown(c, |c|, h, pcbs);
    assert c[..|c|] + [h] + c[|c|..] == c + [h];
    if head == NIL {
      assert c == [];
      LinkedSingleton(h, next, prev);
      assert c + [h] == [h];
    } else {
      LinkedAppend(c, h, head, tail, next, prev);
    }
  }

  /** The links placePCBHeadAtEndOfDLL writes to move the head of a queue of two or more behind its tail. */
  lemma RotatedHead(c: seq<nat>, head: int, tail: int, pcbs: map<nat, PCB>,
                    next: map<nat, int>, prev: map<nat, int>, nextHandle: nat)
    requires QueueInvariant(c, head, tail, pcbs, next, prev, nextHandle) && |c| >= 2
    ensures head == c[0] && tail >= 0 && next[c[0]] == c[1]
    ensures ViewOf(c[1..] + [c[0]], pcbs) == ViewOf(c, pcbs)[1..] + [ViewOf(c, pcbs)[0]]
    ensures QueueInvariant(c[1..] + [c[0]], c[1], c[0], pcbs, next[tail as nat := c[0]][c[0] := NIL],
                           prev[c[1] := NIL][c[0] := tail], nextHandle)
  {
    LinkedRotate(c, head, tail, next, prev);
    var c' := c[1..] + [c[0]];
    assert forall i :: 0 <= i < |c'| ==> c'[i] == if i < |c| - 1 then c[i + 1] else c[0];
  }

  /** The handle that takes x's place when p1 and p2 trade places; NIL stays NIL. */
  function Swap(x: int, p1: nat, p2: nat): (r: int)
    ensures x >= 0 ==> r >= 0
    ensures x == NIL ==> r == NIL
  {
    if x == p1 then p2 else if x == p2 then p1 else x
  }

  /** The handles with p1 and p2 trading places. */
  function SwapAll(c: seq<nat>, p1: nat, p2: nat): (r: seq<nat>)
    ensures |r| == |c| && forall k :: 0 <= k < |c| ==> r[k] == Swap(c[k], p1, p2)
  {
    seq(|c|, k requires 0 <= k < |c| => Swap(c[k], p1, p2) as nat)
  }

  /** Trading two queued handles exchanges their positions and leaves every other position alone. */
  lemma SwapAllExchanges(c: seq<nat>, p1: nat, p2: nat)
    requires Distinct(c) && p1 in c && p2 in c
    ensures SwapAll(c, p1, p2) == c[IndexOf(c, p1) := p2][IndexOf(c, p2) := p1]
  {
    var i, j := IndexOf(c, p1), IndexOf(c, p2);
    var s := c[i := p2][j := p1];
    forall k | 0 <= k < |c|
      ensures SwapAll(c, p1, p2)[k] == s[k]
    {
      if k != i && k != j {
        assert c[k] != c[i] && c[k] != c[j];
      }
    }
  }

  /** The records of a list with p1 and p2 trading places. */
  lemma ViewOfSwap(c: seq<nat>, p1: nat, p2: nat, m: map<nat, PCB>)
    requires p1 in m && p2 in m && forall k :: 0 <= k < |c| ==> c[k] in m
    ensures forall k :: 0 <= k < |c| ==> SwapAll(c, p1, p2)[k] in m
    ensures ViewOf(SwapAll(c, p1, p2), m) == seq(|c|, k requires 0 <= k < |c| => m[Swap(c[k], p1, p2) as nat])
  {
  }

  /** In a doubly linked list, y follows x exactly when x precedes y. */
  lemma LinkedNeighbours(c: seq<nat>, head: int, tail: int, next: map<nat, int>, prev: map<nat, int>, x: nat, y: nat)
    requires Linked(c, head, tail, next, prev) && x in c && y in c
    ensures next[x] == y <==> prev[y] == x
  {
    var a, b := IndexOf(c, x), IndexOf(c, y);
    LinkedAt(c, head, tail, next, prev, a);
    LinkedAt(c, head, tail, next, prev, b);
  }

  /**
   * Links that give the node in x's place the image of x's links thread the
   * list with p1 and p2 traded.
   */
  lemma LinkedSwap(c: seq<nat>, head: int, tail: int, next: map<nat, int>, prev: map<nat, int>, p1: nat, p2: nat,
                   c': seq<nat>, next': map<nat, int>, prev': map<nat, int>)
    requires Linked(c, head, tail, next, prev) && c' == SwapAll(c, p1, p2)
    requires forall k :: 0 <= k < |c'| ==> c'[k] in next' && c'[k] in prev'
    requires forall k :: 0 <= k < |c'| ==> next'[c'[k]] == Swap(next[c[k]], p1, p2) && prev'[c'[k]] == Swap(prev[c[k]], p1, p2)
    ensures Linked(c', Swap(head, p1, p2), Swap(tail, p1, p2), next', prev')
  {
    forall a, b | 0 <= a < b < |c'|
      ensures c'[a] != c'[b]
    {
      assert c[a] != c[b];
    }
    if c != [] {
      LinkedAt(c, head, tail, next, prev, 0);
      LinkedAt(c, head, tail, next, prev, |c| - 1);
    }
    forall i, k | 0 <= i && k == i + 1 && k < |c'|
      ensures next'[c'[i]] == c'[k] && prev'[c'[k]] == c'[i]
    {
      assert next[c[i]] == c[k] && prev[c[k]] == c[i];
    }
  }

  /**
   * The links switchPCBs leaves, described node by node: the nodes next to
   * p1 and p2 point at the other one, and p1 and p2 take each other's links
   * (a link from one to the other becoming a link back to itself).
   */
  ghost predicate SwitchedLinks(pcbs: map<nat, PCB>, next: map<nat, int>, prev: map<nat, int>, p1: nat, p2: nat,
                                next': map<nat, int>, prev': map<nat, int>) {
    && next.Keys == pcbs.Keys && prev.Keys == pcbs.Keys && p1 in pcbs && p2 in pcbs
    && next'.Keys == pcbs.Keys && prev'.Keys == pcbs.Keys
    && next'[p1] == (if next[p2] != p1 then next[p2] else p2)
    && (p1 != p2 ==> next'[p2] == (if next[p1] != p2 then next[p1] else p1))
    && (forall x :: x in pcbs && x != p1 && x != p2 ==>
          next'[x] == if x == prev[p2] then p1 else if x == prev[p1] then p2 else next[x])
    && prev'[p1] == (if prev[p2] != p1 then prev[p2] else p2)
    && (p1 != p2 ==> prev'[p2] == (if prev[p1] != p2 then prev[p1] else p1))
    && (forall x :: x in pcbs && x != p1 && x != p2 ==>
          prev'[x] == if x == next[p2] then p1 else if x == next[p1] then p2 else prev[x])
  }

  /** Under SwitchedLinks, the node in position k's new place has the image of position k's old links. */
  lemma SwitchedAt(c: seq<nat>, head: int, tail: int, pcbs: map<nat, PCB>, next: map<nat, int>, prev: map<nat, int>,
                   nextHandle: nat, p1: nat, p2: nat, next': map<nat, int>, prev': map<nat, int>, k: nat)
    requires QueueInvariant(c, head, tail, pcbs, next, prev, nextHandle) && p1 in c && p2 in c && k < |c|
    requires SwitchedLinks(pcbs, next, prev, p1, p2, next', prev')
    ensures Swap(c[k], p1, p2) >= 0 && Swap(c[k], p1, p2) as nat in pcbs
    ensures next'[Swap(c[k], p1, p2) as nat] == Swap(next[c[k]], p1, p2)
    ensures prev'[Swap(c[k], p1, p2) as nat] == Swap(prev[c[k]], p1, p2)
  {
    var x := c[k];
    LinkedAt(c, head, tail, next, prev, k);
    LinkedAt(c, head, tail, next, prev, IndexOf(c, p1));
    LinkedAt(c, head, tail, next, prev, IndexOf(c, p2));
    LinkedNeighbours(c, head, tail, next, prev, x, p1);
    LinkedNeighbours(c, head, tail, next, prev, x, p2);
    LinkedNeighbours(c, head, tail, next, prev, p1, x);
    LinkedNeighbours(c, head, tail, next, prev, p2, x);
  }

  /** What switchPCBs relies on: no node links to itself, and a neighbour of a queued PCB is a known PCB. */
  lemma SwitchFacts(c: seq<nat>, head: int, tail: int, pcbs: map<nat, PCB>, next: map<nat, int>, prev: map<nat, int>,
                    nextHandle: nat, p1: nat, p2: nat)
    requires QueueInvariant(c, head, tail, pcbs, next, prev, nextHandle) && p1 in c && p2 in c
    ensures p1 in pcbs && p2 in pcbs
    ensures prev[p1] != p1 && next[p1] != p1 && prev[p2] != p2 && next[p2] != p2
    ensures prev[p1] == NIL || (prev[p1] >= 0 && prev[p1] as nat in pcbs)
    ensures next[p1] == NIL || (next[p1] >= 0 && next[p1] as nat in pcbs)
    ensures prev[p2] == NIL || (prev[p2] >= 0 && prev[p2] as nat in pcbs)
    ensures next[p2] == NIL || (next[p2] >= 0 && next[p2] as nat in pcbs)
  {
    var i, j := IndexOf(c, p1), IndexOf(c, p2);
    LinkedAt(c, head, tail, next, prev, i);
    LinkedAt(c, head, tail, next, prev, j);
    if i > 0 { assert c[i - 1] != c[i]; }
    if i + 1 < |c| { assert c[i + 1] != c[i]; }
    if j > 0 { assert c[j - 1] != c[j]; }
    if j + 1 < |c| { assert c[j + 1] != c[j]; }
  }

  /** The links after the nodes around p are pointed at q. */
  ghost predicate Pointed(next: map<nat, int>, prev: map<nat, int>, p: nat, q: nat, next': map<nat, int>, prev': map<nat, int>)
    requires p in next && p in prev
  {
    && next'.Keys == next.Keys && prev'.Keys == prev.Keys
    && (forall x :: x in next' ==> next'[x] == if x == prev[p] && x != q then q else next[x])
    && (forall x :: x in prev' ==> prev'[x] == if x == next[p] && x != q then q else prev[x])
  }

  /** The links after p1 and p2 take each other's links. */
  ghost predicate Exchanged(next: map<nat, int>, prev: map<nat, int>, p1: nat, p2: nat, next': map<nat, int>, prev': map<nat, int>)
    requires p1 in next && p2 in next && p1 in prev && p2 in prev
  {
    && next'.Keys == next.Keys && prev'.Keys == prev.Keys
    && next'[p1] == (if next[p2] != p1 then next[p2] else p2)
    && (p1 != p2 ==> next'[p2] == (if next[p1] != p2 then next[p1] else p1))
    && prev'[p1] == (if prev[p2] != p1 then prev[p2] else p2)
    && (p1 != p2 ==> prev'[p2] == (if prev[p1] != p2 then prev[p1] else p1))
    && (forall x :: x in next' && x != p1 && x != p2 ==> next'[x] == next[x])
    && (forall x :: x in prev' && x != p1 && x != p2 ==> prev'[x] == prev[x])
  }

  /** The three steps of switchPCBs together give the links SwitchedLinks describes. */
  lemma SwitchComposed(pcbs: map<nat, PCB>, n0: map<nat, int>, b0: map<nat, int>, n1: map<nat, int>, b1: map<nat, int>,
                       n2: map<nat, int>, b2: map<nat, int>, n3: map<nat, int>, b3: map<nat, int>, p1: nat, p2: nat)
    requires n0.Keys == pcbs.Keys && b0.Keys == pcbs.Keys && p1 in pcbs && p2 in pcbs
    requires b0[p1] != p1 && n0[p1] != p1 && b0[p2] != p2 && n0[p2] != p2
    requires Pointed(n0, b0, p1, p2, n1, b1) && Pointed(n1, b1, p2, p1, n2, b2) && Exchanged(n2, b2, p1, p2, n3, b3)
    ensures SwitchedLinks(pcbs, n0, b0, p1, p2, n3, b3)
  {
  }

  /** switchPCBs' links thread the queue with p1 and p2 exchanged. */
  lemma Switched(c: seq<nat>, head: int, tail: int, pcbs: map<nat, PCB>, next: map<nat, int>, prev: map<nat, int>,
                 nextHandle: nat, p1: nat, p2: nat, c': seq<nat>, head': int, tail': int,
                 next': map<nat, int>, prev': map<nat, int>)
    requires QueueInvariant(c, head, tail, pcbs, next, prev, nextHandle) && p1 in c && p2 in c
    requires SwitchedLinks(pcbs, next, prev, p1, p2, next', prev')
    requires c' == SwapAll(c, p1, p2) && head' == Swap(head, p1, p2) && tail' == Swap(tail, p1, p2)
    ensures QueueInvariant(c', head', tail', pcbs, next', prev', nextHandle)
  {
    forall k | 0 <= k < |c'|
      ensures c'[k] in next' && c'[k] in prev'
      ensures next'[c'[k]] == Swap(next[c[k]], p1, p2) && prev'[c'[k]] == Swap(prev[c[k]], p1, p2)
    {
      SwitchedAt(c, head, tail, pcbs, next, prev, nextHandle, p1, p2, next', prev', k);
    }
    LinkedSwap(c, head, tail, next, prev, p1, p2, c', next', prev');
  }

  /** The ready queue. */
  class ReadyQueue {
    var head: int
    var tail: int
    var pcbs: map<nat, PCB>
    var next: map<nat, int>
    var prev: map<nat, int>
    /** The next handle malloc hands out. */
    var nextHandle: nat
    ghost var Contents: seq<nat>

    ghost predicate Valid()
      reads this
    {
      QueueInvariant(Contents, head, tail, pcbs, next, prev, nextHandle)
    }

    /** The queued records from head to tail. */
    ghost function View(): seq<PCB>
      requires Valid()
      reads this
    {
      ViewOf(Contents, pcbs)
    }

    /** scheduler_init: an empty queue. */
    constructor ()
      ensures Valid() && Contents == [] && pcbs == map[]
    {
      head, tail := NIL, NIL;
      pcbs, next, prev := map[], map[], map[];
      nextHandle := 0;
      Contents := [];
    }

    /** malloc of a new, unlinked PCB. */
    method NewPCB(p: PCB) returns (h: nat)
      requires Valid()
      modifies this
      ensures Valid() && h == old(nextHandle) && h !in old(pcbs) && pcbs == old(pcbs)[h := p]
      ensures Contents == old(Contents) && head == old(head) && tail == old(tail)
      ensures View() == old(View())
    {
      h := nextHandle;
      LinkedReset(Contents, head, tail, next, prev, h, NIL, NIL);
      pcbs := pcbs[h := p];
      next := next[h := NIL];
      prev := prev[h := NIL];
      nextHandle := nextHandle + 1;
      assert View() == old(View());
    }

    /** free of a PCB that is not linked into the queue. */
    method FreePCB(h: nat)
      requires Valid() && h in pcbs && h !in Contents
      modifies this
      ensures Valid() && pcbs == old(pcbs) - {h} && Contents == old(Contents)
      ensures View() == old(View())
    {
      LinkedDropKey(Contents, head, tail, next, prev, h);
      pcbs := pcbs - {h};
      next := next - {h};
      prev := prev - {h};
    }

    /** A write to the counters of one PCB, linked or not. */
    method SetPCB(h: nat, p: PCB)
      requires Valid() && h in pcbs
      modifies this
      ensures Valid() && pcbs == old(pcbs)[h := p] && Contents == old(Contents)
      ensures h !in Contents ==> View() == old(View())
    {
      pcbs := pcbs[h := p];
      assert h !in Contents ==> View() == old(View());
    }

    /** placePCBAtEndOfDLL: link an unlinked PCB after the tail. */
    method PlaceAtEnd(h: nat)
      requires Valid() && h in pcbs && h !in Contents
      modifies this
      ensures Valid() && pcbs == old(pcbs)
      ensures Contents == old(Contents) + [h]
      ensures forall x :: x in Contents <==> x in old(Contents) || x == h
      ensures View() == old(View()) + [pcbs[h]]
    {
      PlacedLast(Contents, h, head, tail, pcbs, next, prev, nextHandle);
      if head == NIL {
        head, tail, next, prev, Contents := h, h, next[h := NIL], prev[h := NIL], Contents + [h];
      } else {
        next, prev, tail, Contents := next[tail as nat := h][h := NIL], prev[h := tail], h, Contents + [h];
      }
    }

    /** placePCBAtStartOfDLL: link an unlinked PCB before the head. */
    method PlaceAtStart(h: nat)
      requires Valid() && h in pcbs && h !in Contents
      modifies this
      ensures Valid() && pcbs == old(pcbs)
      ensures Contents == [h] + old(Contents)
      ensures forall x :: x in Contents <==> x in old(Contents) || x == h
      ensures View() == [pcbs[h]] + old(View())
    {
      PlacedFirst(Contents, h, head, tail, pcbs, next, prev, nextHandle);
      if head == NIL {
        head, tail, next, prev, Contents := h, h, next[h := NIL], prev[h := NIL], [h] + Contents;
      } else {
        next, prev, head, Contents := next[h := head], prev[head as nat := h][h := NIL], h, [h] + Contents;
      }
    }

    /** detachPCBFromQueue: unlink a queued PCB and clear its links. */
    method Detach(h: nat)
      requires Valid() && h in Contents
      modifies this
      ensures Valid() && pcbs == old(pcbs)
      ensures Contents == RemoveAt(old(Contents), IndexOf(old(Contents), h))
      ensures forall x :: x in Contents <==> x in old(Contents) && x != h
      ensures next[h] == NIL && prev[h] == NIL
    {
      RemoveAtDrops(Contents, IndexOf(Contents, h));
      if head == h {
        DetachHead();
      } else if tail == h {
        DetachTail();
      } else {
        DetachMiddle(h, IndexOf(Contents, h));
      }
    }

    /** The head case of detachPCBFromQueue. */
    method DetachHead()
      requires Valid() && Contents != []
      modifies this
      ensures Valid() && pcbs == old(pcbs)
      ensures Contents == old(Contents)[1..]
      ensures next[old(Contents)[0]] == NIL && prev[old(Contents)[0]] == NIL
    {
      ghost var c := Contents;
      var h := head as nat;
      if |c| >= 2 {
        LinkedRemoveHead(c, head, tail, next, prev);
      } else {
        LinkedRemoveOnly(c, head, tail, next, prev);
      }
      head := next[h];
      if head != NIL {
        prev := prev[head as nat := NIL];
      } else {
        tail := NIL;
      }
      next := next[h := NIL];
      prev := prev[h := NIL];
      Contents := c[1..];
    }

    /** The tail case of detachPCBFromQueue, for a PCB that is not also the head. */
    method DetachTail()
      requires Valid() && |Contents| >= 2
      modifies this
      ensures Valid() && pcbs == old(pcbs)
      ensures Contents == old(Contents)[..|old(Contents)| - 1]
      ensures next[old(Contents)[|old(Contents)| - 1]] == NIL && prev[old(Contents)[|old(Contents)| - 1]] == NIL
    {
      ghost var c := Contents;
      var h := tail as nat;
      LinkedRemoveTail(c, head, tail, next, prev);
      tail := prev[h];
      next := next[tail as nat := NIL][h := NIL];
      prev := prev[h := NIL];
      Contents := c[..|c| - 1];
    }

    /** The case of detachPCBFromQueue for a PCB with a neighbour on each side. */
    method DetachMiddle(h: nat, ghost i: nat)
      requires Valid() && 0 < i < |Contents| - 1 && h == Contents[i]
      modifies this
      ensures Valid() && pcbs == old(pcbs)
      ensures Contents == RemoveAt(old(Contents), i)
      ensures next[h] == NIL && prev[h] == NIL
    {
      ghost var c := Contents;
      LinkedRemoveMiddle(c, i, head, tail, next, prev);
      var p, n := prev[h], next[h];
      next := next[p as nat := n][h := NIL];
      prev := prev[n as nat := p][h := NIL];
      Contents := RemoveAt(c, i);
    }

    /** popHeadFromPCBQueue: detach and return the head, its links cleared, or NIL when the queue is empty. */
    method PopHead() returns (h: int)
      requires Valid()
      modifies this
      ensures Valid() && pcbs == old(pcbs)
      ensures old(Contents) == [] ==> h == NIL && Contents == []
      ensures old(Contents) != [] ==> h == old(Contents)[0] && Contents == old(Contents)[1..]
      ensures old(Contents) != [] ==> View() == old(View())[1..]
      ensures h != NIL ==> h >= 0 && h as nat in pcbs && h as nat !in Contents && [pcbs[h as nat]] + View() == old(View())
      ensures h != NIL ==> next[h as nat] == NIL && prev[h as nat] == NIL
    {
      if head != NIL {
        ghost var c := Contents;
        h := head;
        assert IndexOf(c, h as nat) == 0;
        Detach(head as nat);
        assert c[..0] + c[1..] == c[1..];
        ViewOfFront(c, pcbs);
      } else {
        h := NIL;
      }
    }

    /** placePCBHeadAtEndOfDLL: move the head behind the tail; nothing happens with fewer than two PCBs. */
    method PlaceHeadAtEnd()
      requires Valid()
      modifies this
      ensures Valid() && pcbs == old(pcbs)
      ensures |old(Contents)| < 2 ==> Contents == old(Contents)
      ensures |old(Contents)| >= 2 ==> Contents == old(Contents)[1..] + [old(Contents)[0]]
      ensures |old(Contents)| >= 2 ==> View() == old(View())[1..] + [old(View())[0]]
    {
      assert |Contents| >= 2 ==> head != tail;
      if tail == head {
        return;
      }
      ghost var c := Contents;
      RotatedHead(c, head, tail, pcbs, next, prev, nextHandle);
      var tmp := head;
      head := next[head as nat];
      prev := prev[head as nat := NIL];
      next := next[tail as nat := tmp];
      prev := prev[tmp as nat := tail];
      next := next[tmp as nat := NIL];
      tail := tmp;
      Contents := c[1..] + [c[0]];
    }

    /**
     * switchPCBs: p1 and p2, both queued, exchange their places in the
     * queue; every other PCB keeps its place.
     */
    method SwitchPCBs(p1: nat, p2: nat)
      requires Valid() && p1 in Contents && p2 in Contents
      modifies this
      ensures Valid() && pcbs == old(pcbs)
      ensures Contents == SwapAll(old(Contents), p1, p2)
    {
      ghost var c, h0, t0, n0, b0 := Contents, head, tail, next, prev;
      SwitchFacts(c, head, tail, pcbs, next, prev, nextHandle, p1, p2);
      Relink(p1, p2);
      SwapEnds(p1, p2);
      Contents := SwapAll(c, p1, p2);
      Switched(c, h0, t0, pcbs, n0, b0, nextHandle, p1, p2, Contents, head, tail, next, prev);
    }

    /** The pointer rewiring of switchPCBs: the nodes around each of p1 and p2 first, then p1 and p2 themselves. */
    method Relink(p1: nat, p2: nat)
      requires next.Keys == pcbs.Keys && prev.Keys == pcbs.Keys && p1 in pcbs && p2 in pcbs
      requires prev[p1] != p1 && next[p1] != p1 && prev[p2] != p2 && next[p2] != p2
      requires prev[p1] == NIL || (prev[p1] >= 0 && prev[p1] as nat in pcbs)
      requires next[p1] == NIL || (next[p1] >= 0 && next[p1] as nat in pcbs)
      requires prev[p2] == NIL || (prev[p2] >= 0 && prev[p2] as nat in pcbs)
      requires next[p2] == NIL || (next[p2] >= 0 && next[p2] as nat in pcbs)
      modifies this
      ensures head == old(head) && tail == old(tail) && pcbs == old(pcbs)
      ensures nextHandle == old(nextHandle) && Contents == old(Contents)
      ensures SwitchedLinks(pcbs, old(next), old(prev), p1, p2, next, prev)
    {
      ghost var n0, b0 := next, prev;
      PointNeighboursAt(p1, p2);
      ghost var n1, b1 := next, prev;
      PointNeighboursAt(p2, p1);
      ghost var n2, b2 := next, prev;
      ExchangeLinks(p1, p2);
      SwitchComposed(pcbs, n0, b0, n1, b1, n2, b2, next, prev, p1, p2);
    }

    /** The first half of switchPCBs, for one of the two: the nodes around p are pointed at q. */
    method PointNeighboursAt(p: nat, q: nat)
      requires next.Keys == prev.Keys && p in next && prev[p] != p && next[p] != p
      requires prev[p] == NIL || (prev[p] >= 0 && prev[p] as nat in next)
      requires next[p] == NIL || (next[p] >= 0 && next[p] as nat in next)
      modifies this
      ensures head == old(head) && tail == old(tail) && pcbs == old(pcbs)
      ensures nextHandle == old(nextHandle) && Contents == old(Contents)
      ensures Pointed(old(next), old(prev), p, q, next, prev)
    {
      if prev[p] != NIL && prev[p] != q {
        next := next[prev[p] as nat := q];
      }
      if next[p] != NIL && next[p] != q {
        prev := prev[next[p] as nat := q];
      }
    }

    /** The end of switchPCBs: head and tail follow the PCB that moved into their place. */
    method SwapEnds(p1: nat, p2: nat)
      modifies this
      ensures head == Swap(old(head), p1, p2) && tail == Swap(old(tail), p1, p2)
      ensures next == old(next) && prev == old(prev) && pcbs == old(pcbs)
      ensures nextHandle == old(nextHandle) && Contents == old(Contents)
    {
      if p1 == head {
        head := p2;
      } else if p2 == head {
        head := p1;
      }
      if p1 == tail {
        tail := p2;
      } else if p2 == tail {
        tail := p1;
      }
    }

    /** The second half of switchPCBs: p1 and p2 take each other's links, a link between them turning round. */
    method ExchangeLinks(p1: nat, p2: nat)
      requires p1 in next && p2 in next && p1 in prev && p2 in prev
      modifies this
      ensures head == old(head) && tail == old(tail) && pcbs == old(pcbs)
      ensures nextHandle == old(nextHandle) && Contents == old(Contents)
      ensures Exchanged(old(next), old(prev), p1, p2, next, prev)
    {
      var tmp := next[p2];
      next := next[p2 := if next[p1] != p2 then next[p1] else p1];
      next := next[p1 := if tmp != p1 then tmp else p2];
      tmp := prev[p2];
      prev := prev[p2 := if prev[p1] != p2 then prev[p1] else p1];
      prev := prev[p1 := if tmp != p1 then tmp else p2];
    }

    /** The linking step of insertPCBFromTailSJF: put an unlinked PCB just after the queued PCB `cur`. */
    method LinkAfter(cur: nat, h: nat, ghost j: nat)
      requires Valid() && h in pcbs && h !in Contents
      requires 0 < j <= |Contents| && cur == Contents[j - 1]
      modifies this
      ensures Valid() && pcbs == old(pcbs)
      ensures Contents == old(Contents)[..j] + [h] + old(Contents)[j..]
    {
      ghost var c := Contents;
      LinkedAfter(c, j, h, head, tail, pcbs, next, prev, nextHandle);
      var n := next[cur];
      var links := next[h := n][cur := h];
      var back := prev[h := cur];
      if n != NIL {
        back := back[n as nat := h];
      }
      next, prev := links, back;
      if cur == tail {
        tail := h;
      }
      Contents := c[..j] + [h] + c[j..];
    }

    /**
     * The scan of insertPCBFromTailSJF: walk back from the tail to the first PCB
     * whose score is at most `score`; `j` is the position just behind it (0 when none is).
     */
    method FindFromTail(score: int) returns (cur: int, ghost j: nat)
      requires Valid()
      ensures j == InsertPos(View(), score) && j <= |Contents|
      ensures cur == if j > 0 then Contents[j - 1] else NIL
    {
      ghost var v := View();
      ghost var c := Contents;
      assert Linked(c, head, tail, next, prev);
      cur := tail;
      j := |c|;
      assert v[..j] == v;
      while cur != NIL
        invariant 0 <= j <= |c|
        invariant cur == if j > 0 then c[j - 1] else NIL
        invariant InsertPos(v, score) == InsertPos(v[..j], score)
        decreases j
      {
        assert v[j - 1] == pcbs[c[j - 1]];
        InsertPosPrefix(v, j, score);
        if score >= pcbs[cur as nat].lengthScore {
          return;
        }
        LinkedAt(c, head, tail, next, prev, j - 1);
        cur := prev[cur as nat];
        j := j - 1;
      }
    }

    /** insertPCBFromTailSJF: link the PCB behind the last queued PCB scoring at most its own. */
    method InsertFromTailSJF(h: nat)
      requires Valid() && h in pcbs && h !in Contents
      modifies this
      ensures Valid() && pcbs == old(pcbs)
      ensures Contents == old(Contents)[..InsertPos(old(View()), pcbs[h].lengthScore)] + [h]
                          + old(Contents)[InsertPos(old(View()), pcbs[h].lengthScore)..]
      ensures forall x :: x in Contents <==> x in old(Contents) || x == h
      ensures View() == SjfInsert(old(View()), pcbs[h])
    {
      ghost var c, v := Contents, View();
      if tail == NIL {
        // the empty queue: the same relinking as placePCBAtEndOfDLL
        assert c == [] && v == [];
        PlaceAtEnd(h);
        assert Contents == [h] && View() == [pcbs[h]];
        return;
      }
      var cur, j := FindFromTail(pcbs[h].lengthScore);
      ViewOfInsert(c, j, h, pcbs);
      InsertMembers(c, j, h);
      if cur != NIL {
        LinkAfter(cur as nat, h, j);
      } else {
        // the new head: the same relinking as placePCBAtStartOfDLL on a non-empty queue
        assert c[..0] + [h] + c[0..] == [h] + c;
        PlaceAtStart(h);
      }
    }

    /** readyQueue.head: the first queued PCB, or NIL when the queue is empty. */
    method Head() returns (h: int)
      requires Valid()
      ensures h == if Contents == [] then NIL else Contents[0]
    {
      h := head;
    }

    /** The aging loop of runAging: walk from the head and age every queued PCB. */
    method AgeQueue()
      requires Valid()
      modifies this
      ensures Valid() && Contents == old(Contents) && pcbs.Keys == old(pcbs).Keys
      ensures forall h :: h in pcbs ==> pcbs[h] == if h in Contents then Age(old(pcbs)[h]) else old(pcbs)[h]
      ensures View() == AgeAll(old(View()))
    {
      ghost var v, c, m := View(), Contents, pcbs;
      var cur := head;
      ghost var i := 0;
      while cur != NIL
        invariant Contents == c && head == old(head) && tail == old(tail)
        invariant next == old(next) && prev == old(prev) && nextHandle == old(nextHandle)
        invariant 0 <= i <= |c| && cur == if i < |c| then c[i] else NIL
        invariant pcbs == AgedUpTo(m, c, i)
        decreases |c| - i
      {
        AgedStep(m, c, i);
        var p := pcbs[cur as nat];
        if p.lengthScore != 0 {
          pcbs := pcbs[cur as nat := p.(lengthScore := p.lengthScore - 1)];
        }
        LinkedAt(c, head, tail, next, prev, i);
        cur := next[cur as nat];
        i := i + 1;
      }
      AgedAll(m, c);
    }
  }
}
