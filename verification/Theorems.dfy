/** What the published log says about the run, for every run of any number of requests. */
module Theorems {
  import opened Wrappers
  import opened Records
  import opened Protocol
  import opened Invariants

  /** Some run of at most `t.limit` requests ends in `t`. */
  ghost predicate Reachable(t: State) {
    Leads(Init(t.limit), t)
  }

  lemma ReachableInv(t: State)
    requires Reachable(t)
    ensures Inv(t)
  {
    var es :| Exec(Init(t.limit), es) == Some(t);
    InitInv(t.limit);
    RunInv(Init(t.limit), es, t);
  }

  // ---------- the register law ----------

  ghost predicate NoWrite(h: seq<Record>, a: int, b: int)
    requires 0 <= a <= b <= |h|
  {
    forall k :: a <= k < b ==> h[k].ReadRecord?
  }

  /** Place `w` holds the last write before place `k`. */
  ghost predicate LastWrite(h: seq<Record>, w: int, k: int)
    requires 0 <= k <= |h|
  {
    0 <= w < k && h[w].WriteRecord? && NoWrite(h, w + 1, k)
  }

  /** Each read returns what the last write before it wrote, or -1 if there is none. */
  ghost predicate RegisterHistory(h: seq<Record>) {
    forall k :: 0 <= k < |h| && h[k].ReadRecord? ==>
      && (forall w :: LastWrite(h, w, k) ==> h[k].oVal == h[w].oVal)
      && (NoWrite(h, 0, k) ==> h[k].oVal == -1)
  }

  /** A prefix has a last write or no write, and its value is the one that write left. */
  lemma {:induction false} CurrentIsLastWrite(h: seq<Record>, k: nat)
    requires k <= |h|
    ensures NoWrite(h, 0, k) ==> Current(h[..k]) == -1
    ensures forall w :: LastWrite(h, w, k) ==> Current(h[..k]) == h[w].oVal
    ensures NoWrite(h, 0, k) || exists w :: LastWrite(h, w, k)
  {
    if k > 0 {
      assert h[..k][..k - 1] == h[..k - 1];
      CurrentIsLastWrite(h, k - 1);
      if h[k - 1].WriteRecord? {
        assert LastWrite(h, k - 1, k);
      } else {
        forall w | LastWrite(h, w, k) ensures LastWrite(h, w, k - 1) {
        }
        if !NoWrite(h, 0, k) {
          var w :| LastWrite(h, w, k - 1);
          assert LastWrite(h, w, k);
        }
      }
    }
  }

  lemma {:induction false} LegalIsRegister(h: seq<Record>)
    requires Legal(h)
    ensures RegisterHistory(h)
  {
    forall k | 0 <= k < |h| && h[k].ReadRecord? ensures h[k].oVal == Current(h[..k]) {
      LegalAt(h, k);
    }
    forall k | 0 <= k < |h| && h[k].ReadRecord?
      ensures (forall w :: LastWrite(h, w, k) ==> h[k].oVal == h[w].oVal) && (NoWrite(h, 0, k) ==> h[k].oVal == -1)
    {
      CurrentIsLastWrite(h, k);
    }
  }

  lemma {:induction false} LegalAt(h: seq<Record>, k: nat)
    requires Legal(h) && k < |h| && h[k].ReadRecord?
    ensures h[k].oVal == Current(h[..k])
  {
    var front := h[..|h| - 1];
    if k < |h| - 1 {
      LegalAt(front, k);
      assert front[..k] == h[..k];
    }
  }

  // ---------- the log is the history, out of order ----------

  ghost predicate SortedBySSeq(log: seq<Record>) {
    forall i, j :: 0 <= i < j < |log| ==> log[i].sSeq <= log[j].sSeq
  }

  /** The record numbered k + 1 is at place k. */
  ghost predicate Numbered(h: seq<Record>) {
    forall k :: 0 <= k < |h| ==> h[k].sSeq == k + 1
  }

  lemma NumberedCounts(h: seq<Record>, r: Record)
    requires Numbered(h)
    ensures multiset(h)[r] == if r in h then 1 else 0
  {
    if r in h {
      var k :| 0 <= k < |h| && h[k] == r;
      assert h == h[..k] + [r] + h[k + 1..];
      assert r !in h[..k] && r !in h[k + 1..];
    }
  }

  /** The greatest record of a sorted arrangement of numbered records is its last. */
  lemma SortedLast(h: seq<Record>, log: seq<Record>)
    requires Numbered(h) && multiset(log) == multiset(h) && SortedBySSeq(log) && h != []
    ensures |log| == |h| && log[|log| - 1] == h[|h| - 1]
  {
    assert |log| == |multiset(log)| == |multiset(h)| == |h|;
    var n := |h|;
    assert h[n - 1] in multiset(log);
    assert log[n - 1] in multiset(h);
    var i :| 0 <= i < n && log[i] == h[n - 1];
    var j :| 0 <= j < n && h[j] == log[n - 1];
  }

  lemma BagOfFront(xs: seq<Record>)
    requires xs != []
    ensures multiset(xs[..|xs| - 1]) == multiset(xs) - multiset{xs[|xs| - 1]}
    ensures xs == xs[..|xs| - 1] + [xs[|xs| - 1]]
  {
    assert xs == xs[..|xs| - 1] + [xs[|xs| - 1]];
  }

  /** A sorted arrangement of numbered records puts each in its place. */
  lemma {:induction false} SortedIsNumbered(h: seq<Record>, log: seq<Record>)
    requires Numbered(h) && multiset(log) == multiset(h) && SortedBySSeq(log)
    ensures log == h
  {
    if h == [] {
      assert |log| == |multiset(log)|;
    } else {
      SortedLast(h, log);
      BagOfFront(log);
      BagOfFront(h);
      SortedIsNumbered(h[..|h| - 1], log[..|log| - 1]);
    }
  }

  lemma HistoryNumbered(t: State)
    requires Inv(t)
    ensures Numbered(t.history)
  {
    forall k: nat | k < |t.history| ensures t.history[k].sSeq == k + 1 {
      assert RecordAt(t.threads, t.history, k);
    }
  }

  /** Every request made so far that reaches the shared object is in the log. */
  predicate Settled(ts: seq<Thread>) {
    forall i :: 0 <= i < |ts| && Touches(ts[i].req) ==> HasLogged(ts[i])
  }

  lemma SettledLog(t: State)
    requires Inv(t) && Settled(t.threads)
    ensures LogBag(t) == multiset(t.history)
  {
    HistoryNumbered(t);
    forall r ensures LogBag(t)[r] == multiset(t.history)[r] {
      NumberedCounts(t.history, r);
      if r in t.history {
        var k: nat :| k < |t.history| && t.history[k] == r;
        assert RecordAt(t.threads, t.history, k);
        assert InLog(t.threads, t.history, r);
      }
    }
  }

  /** Linearizability: whenever all requests made so far are logged, the logged
      records sorted by sSeq are numbered 1, 2, ... and are a legal history of a
      register that starts at -1. */
  lemma Linearizable(t: State, log: seq<Record>)
    requires Reachable(t) && Settled(t.threads)
    requires multiset(log) == LogBag(t) && SortedBySSeq(log)
    ensures log == t.history && Numbered(log) && RegisterHistory(log)
  {
    ReachableInv(t);
    SettledLog(t);
    HistoryNumbered(t);
    SortedIsNumbered(t.history, log);
    LegalIsRegister(log);
  }

  /** In every reachable state each drawn number belongs to one thread; its record
      is in the log once if that thread has logged it, and otherwise not at all. */
  lemma DrawnOnce(t: State, k: nat)
    requires Reachable(t) && k < |t.history|
    ensures 1 <= t.history[k].rSeq <= |t.threads|
    ensures
      var r := t.history[k];
      var i := r.rSeq - 1;
      && r.sSeq == k + 1
      && HasDrawn(t.threads[i]) && t.threads[i].rSeq == r.rSeq && RecordOf(t.threads[i]) == r
      && (forall j :: 0 <= j < |t.threads| && HasDrawn(t.threads[j]) && t.threads[j].sSeq == k + 1 ==> j == i)
      && LogBag(t)[r] == if HasLogged(t.threads[i]) then 1 else 0
  {
    ReachableInv(t);
    var r := t.history[k];
    assert RecordAt(t.threads, t.history, k);
    assert InLog(t.threads, t.history, r) == HasLogged(t.threads[r.rSeq - 1]);
    forall j | 0 <= j < |t.threads| && HasDrawn(t.threads[j]) && t.threads[j].sSeq == k + 1
      ensures j == r.rSeq - 1
    {
      assert DrawnAt(t.threads, t.history, j);
    }
  }

  /** Nothing but drawn records is in the log, and sSeq is the next number to draw. */
  lemma NothingElse(t: State)
    requires Reachable(t)
    ensures t.sSeq == |t.history| + 1
    ensures forall r :: r in LogBag(t) ==> r in t.history && LogBag(t)[r] == 1
  {
    ReachableInv(t);
    forall r | r in LogBag(t) ensures r in t.history && LogBag(t)[r] == 1 {
      assert InLog(t.threads, t.history, r);
    }
  }

  // ---------- rNum ----------

  ghost function RNums(h: seq<Record>, a: nat, b: nat): set<int>
    requires a <= b <= |h| && NoWrite(h, a, b)
  {
    set k | a <= k < b :: h[k].rNum
  }

  /** The set is {1, ..., m}. */
  ghost predicate IsUpTo(nums: set<int>, m: nat) {
    forall x :: x in nums <==> 1 <= x <= m
  }

  /** A block of reads: no write inside, bounded by a write or an end on each side. */
  ghost predicate MaximalBlock(h: seq<Record>, a: nat, b: nat) {
    && a < b <= |h| && NoWrite(h, a, b)
    && (a == 0 || h[a - 1].WriteRecord?)
    && (b == |h| || h[b].WriteRecord?)
  }

  lemma RNumsSnoc(h: seq<Record>, a: nat, b: nat)
    requires a < b <= |h| && NoWrite(h, a, b)
    ensures RNums(h, a, b) == RNums(h, a, b - 1) + {h[b - 1].rNum}
  {
  }

  lemma {:induction false} BlockNumsAre(h: seq<Record>, a: nat, b: nat)
    requires a <= b <= |h| && NoWrite(h, a, b) && (a == 0 || h[a - 1].WriteRecord?)
    ensures BlockNums(h[..b]) == RNums(h, a, b)
    ensures |BlockNums(h[..b])| <= b - a
  {
    if a < b {
      var nums := BlockNums(h[..b - 1]);
      assert h[..b][..b - 1] == h[..b - 1];
      BlockNumsAre(h, a, b - 1);
      RNumsSnoc(h, a, b);
      assert BlockNums(h[..b]) == nums + {h[b - 1].rNum};
      assert |nums + {h[b - 1].rNum}| <= |nums| + 1;
    } else {
      assert RNums(h, a, b) == {};
    }
  }

  lemma {:induction false} ClosedAt(h: seq<Record>, k: nat)
    requires ClosedBlocks(h) && k < |h| && h[k].WriteRecord?
    ensures DownClosed(BlockNums(h[..k]))
  {
    var front := h[..|h| - 1];
    if k < |h| - 1 {
      ClosedAt(front, k);
      assert front[..k] == h[..k];
    }
  }

  lemma {:induction false} Descend(nums: set<int>, x: int, y: int)
    requires DownClosed(nums) && x in nums && 1 <= y <= x
    ensures y in nums
    decreases x - y
  {
    if y < x {
      Descend(nums, x, y + 1);
    }
  }

  /** A downward closed finite set of positive numbers is an initial segment. */
  lemma InitialSegment(nums: set<int>) returns (m: nat)
    requires DownClosed(nums)
    ensures IsUpTo(nums, m) && m == |nums|
  {
    m := 0;
    var seen: set<int> := {};
    while m + 1 in nums
      invariant IsUpTo(seen, m) && |seen| == m && seen <= nums
      decreases |nums| - m
    {
      SubsetSize(seen, nums);
      seen := seen + {m + 1};
      m := m + 1;
    }
    SubsetSize(seen, nums);
    forall x | x in nums ensures x in seen {
      if x > m { Descend(nums, x, m + 1); }
    }
    assert nums == seen;
  }

  lemma SubsetSize<T>(a: set<T>, b: set<T>)
    requires a <= b
    ensures |a| <= |b| && (|a| == |b| ==> a == b)
  {
    assert b * a == a && b == b * a + (b - a);
    assert |b - a| + |b * a| == |b|;
    if |a| == |b| {
      assert b - a == {};
    }
  }

  /** The rNums of a block that no reader can still extend. */
  lemma BlockIsDownClosed(t: State, a: nat, b: nat)
    requires Inv(t) && MaximalBlock(t.history, a, b) && (Settled(t.threads) || b < |t.history|)
    ensures DownClosed(BlockNums(t.history[..b]))
  {
    var h := t.history;
    if b < |h| {
      ClosedAt(h, b);
    } else {
      assert PendingNums(t.threads) == {};
      assert h[..b] == h;
      assert BlockNums(h) + PendingNums(t.threads) == BlockNums(h);
    }
  }

  lemma BlockValues(h: seq<Record>, a: nat, b: nat)
    requires Legal(h) && a <= b <= |h| && NoWrite(h, a, b)
    ensures forall k :: a <= k < b ==> h[k].oVal == Current(h[..a])
  {
    forall k: nat | a <= k < b ensures h[k].oVal == Current(h[..a]) {
      LegalAt(h, k);
      SameCurrent(h, a, k);
    }
  }

  /** Between two writes the rNums are exactly 1..m, m at most the number of reads,
      and all these reads return the same value: a read numbered k is among at least
      k reads that saw the same news. */
  lemma RNumBlocks(t: State, a: nat, b: nat) returns (m: nat)
    requires Reachable(t)
    requires MaximalBlock(t.history, a, b) && (Settled(t.threads) || b < |t.history|)
    ensures 1 <= m <= b - a && IsUpTo(RNums(t.history, a, b), m)
    ensures forall j, k :: a <= j < k < b ==> t.history[j].oVal == t.history[k].oVal
    ensures forall k :: a <= k < b ==> 1 <= t.history[k].rNum <= m
  {
    ReachableInv(t);
    var h := t.history;
    BlockIsDownClosed(t, a, b);
    BlockNumsAre(h, a, b);
    BlockValues(h, a, b);
    m := InitialSegment(BlockNums(h[..b]));
    forall k | a <= k < b ensures 1 <= h[k].rNum <= m {
      assert h[k].rNum in RNums(h, a, b);
    }
    assert 1 <= h[a].rNum <= m;
  }

  lemma {:induction false} SameCurrent(h: seq<Record>, a: nat, k: nat)
    requires a <= k <= |h| && NoWrite(h, a, k)
    ensures Current(h[..k]) == Current(h[..a])
  {
    if a < k {
      assert h[..k][..k - 1] == h[..k - 1];
      SameCurrent(h, a, k - 1);
    }
  }

  // ---------- the position of writes ----------

  /** A write's sSeq is its arrival position on the lock: everything that queued
      before it has a smaller number, everything that queued after it a larger one. */
  lemma WritePosition(t: State, p: nat)
    requires Reachable(t)
    requires p < |t.arrivals| && t.arrivals[p] < |t.threads|
    requires t.threads[t.arrivals[p]].req.Write? && HasDrawn(t.threads[t.arrivals[p]])
    ensures t.threads[t.arrivals[p]].sSeq == p + 1
    ensures forall q: nat :: q < |t.arrivals| ==> t.arrivals[q] < |t.threads|
    ensures forall q: nat :: q < p ==> HasDrawn(t.threads[t.arrivals[q]]) && t.threads[t.arrivals[q]].sSeq < p + 1
    ensures forall q: nat :: p < q < |t.arrivals| && HasDrawn(t.threads[t.arrivals[q]]) ==>
              t.threads[t.arrivals[q]].sSeq > p + 1
  {
    ReachableInv(t);
    var w := t.arrivals[p];
    var k := t.threads[w].sSeq - 1;
    assert DrawnAt(t.threads, t.history, w);
    assert WriteAt(t.threads, t.arrivals, t.history, k);
    assert k == p;
    forall q: nat | q < |t.arrivals|
      ensures t.arrivals[q] < |t.threads|
      ensures q < p ==> HasDrawn(t.threads[t.arrivals[q]]) && t.threads[t.arrivals[q]].sSeq < p + 1
      ensures p < q && HasDrawn(t.threads[t.arrivals[q]]) ==> t.threads[t.arrivals[q]].sSeq > p + 1
    {
      assert Separates(t.threads, t.arrivals, k, q);
      assert DrawnAt(t.threads, t.history, t.arrivals[q]);
    }
  }

  // ---------- the lock and the counters, at every moment ----------

  ghost predicate WritersExclude(ts: seq<Thread>) {
    forall i, j | 0 <= i < |ts| && 0 <= j < |ts| && i != j ::
      Holds(ts[i]) && ts[i].req.Write? ==> !Holds(ts[j])
  }

  /** A writer excludes everybody, readers exclude writers; nRead counts the readers
      between increment and decrement, which all hold the lock. */
  lemma MutualExclusion(t: State)
    requires Reachable(t)
    ensures WritersExclude(t.threads)
    ensures t.nRead == |InsideSet(t.threads)|
    ensures InsideSet(t.threads) <= t.lock.readers
    ensures t.lock.writer.Some? ==> t.nRead == 0 && t.lock.readers == {}
    ensures forall i :: 0 <= i < |t.threads| && t.threads[i].req.Read? && t.threads[i].pc.Valued? ==>
              t.threads[i].value == t.val == Current(t.history)
  {
    ReachableInv(t);
    forall i: nat | i < |t.threads| && Holds(t.threads[i]) && t.threads[i].req.Write?
      ensures forall j: nat :: j < |t.threads| && Holds(t.threads[j]) ==> j == i
    {
      WriterAlone(t, i);
    }
    forall i: nat | i < |t.threads| && Inside(t.threads[i]) ensures i in t.lock.readers {
      assert LockAt(t.threads, t.lock, i);
    }
    if t.lock.writer.Some? {
      assert LockAt(t.threads, t.lock, t.lock.writer.value);
      WriterAlone(t, t.lock.writer.value);
    }
    forall i: nat | i < |t.threads| && t.threads[i].req.Read? && t.threads[i].pc.Valued?
      ensures t.threads[i].value == t.val == Current(t.history)
    {
      assert LockAt(t.threads, t.lock, i);
      assert SampleAt(t.threads[i], t.val);
    }
  }

  /** Across a write the order of arrival and the order of numbers agree: if a write
      queued between two requests, or is one of them, the one that queued first has the
      smaller number.  So only reads with no write between them can be reordered. */
  lemma OrderAcrossWrites(t: State, p: nat, m: nat, q: nat)
    requires Reachable(t) && p <= m <= q < |t.arrivals| && p < q
    requires forall x: nat :: p <= x <= q ==> t.arrivals[x] < |t.threads|
    requires t.threads[t.arrivals[m]].req.Write? && HasDrawn(t.threads[t.arrivals[q]])
    ensures HasDrawn(t.threads[t.arrivals[p]])
    ensures t.threads[t.arrivals[p]].sSeq < t.threads[t.arrivals[q]].sSeq
  {
    WriteHasDrawn(t, m, q);
    WritePosition(t, m);
  }

  lemma ReachableLocking(t: State)
    requires Reachable(t)
    ensures Fifo(t.threads, t.lock.queue, t.arrivals) && Locking(t.threads, t.lock, t.arrivals)
  {
    ReachableInv(t);
  }

  /** A write that queued before a request that has drawn has drawn as well. */
  lemma WriteHasDrawn(t: State, m: nat, q: nat)
    requires Reachable(t) && m <= q < |t.arrivals|
    requires t.arrivals[m] < |t.threads| && t.arrivals[q] < |t.threads|
    requires t.threads[t.arrivals[m]].req.Write? && HasDrawn(t.threads[t.arrivals[q]])
    ensures HasDrawn(t.threads[t.arrivals[m]])
  {
    ReachableLocking(t);
    var w, g := t.arrivals[m], |t.arrivals| - |t.lock.queue|;
    assert FifoAt(t.threads, t.arrivals, g, m) && FifoAt(t.threads, t.arrivals, g, q);
    assert LockAt(t.threads, t.lock, w);
  }
}
