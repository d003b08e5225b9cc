/**
The inductive invariant of the protocol: what every reachable state satisfies,
whatever the interleaving.  One lemma per conjunct shows that a step keeps it.
*/
module Invariants {
  import opened Wrappers
  import opened Records
  import opened Protocol

  // ---------- the phases of a thread ----------

  /** The thread has called lock(). */
  predicate HasArrived(t: Thread) { Touches(t.req) && Rank(t.pc) >= 1 }

  /** The thread holds the lock in its own mode. */
  predicate Holds(t: Thread) { Touches(t.req) && 2 <= Rank(t.pc) <= 6 }

  /** The thread's sSeq is drawn and its record is built. */
  predicate HasDrawn(t: Thread) { Touches(t.req) && Rank(t.pc) >= 5 }

  /** The thread holds the lock and has yet to draw its sSeq. */
  predicate Undrawn(t: Thread) { Touches(t.req) && 2 <= Rank(t.pc) <= 4 }

  /** A reader between its increment and its decrement of nRead. */
  predicate Inside(t: Thread) { t.req.Read? && 3 <= Rank(t.pc) <= 5 }

  /** A reader that has its rNum and has yet to draw its sSeq. */
  predicate Pending(t: Thread) { t.req.Read? && 3 <= Rank(t.pc) <= 4 }

  /** The thread's record is in the log. */
  predicate HasLogged(t: Thread) { Touches(t.req) && Rank(t.pc) >= 8 }

  ghost function InsideSet(ts: seq<Thread>): set<nat> {
    set i: nat | i < |ts| && Inside(ts[i])
  }

  ghost function UndrawnSet(ts: seq<Thread>): set<nat> {
    set i: nat | i < |ts| && Undrawn(ts[i])
  }

  ghost function ArrivedSet(ts: seq<Thread>): set<nat> {
    set i: nat | i < |ts| && HasArrived(ts[i])
  }

  /** The rNums held by readers that have yet to draw. */
  ghost function PendingNums(ts: seq<Thread>): set<int> {
    set i: nat | i < |ts| && Pending(ts[i]) :: ts[i].rNum
  }

  // ---------- histories ----------

  /** The value of the register after the history `h`. */
  function Current(h: seq<Record>): int {
    if h == [] then -1
    else if h[|h| - 1].WriteRecord? then h[|h| - 1].oVal
    else Current(h[..|h| - 1])
  }

  /** Every read of `h` returns the value of the register at its place. */
  predicate Legal(h: seq<Record>) {
    h == [] ||
    (Legal(h[..|h| - 1]) &&
     (h[|h| - 1].ReadRecord? ==> h[|h| - 1].oVal == Current(h[..|h| - 1])))
  }

  /** The rNums of the reads after the last write of `h`. */
  function BlockNums(h: seq<Record>): set<int> {
    if h == [] || h[|h| - 1].WriteRecord? then {}
    else BlockNums(h[..|h| - 1]) + {h[|h| - 1].rNum}
  }

  /** The shape {1..m} for some m, as a closure property. */
  ghost predicate DownClosed(nums: set<int>) {
    forall x :: x in nums ==> x >= 1 && (x > 1 ==> x - 1 in nums)
  }

  /** Every block of reads that a write has closed has rNums {1..m}. */
  ghost predicate ClosedBlocks(h: seq<Record>) {
    h == [] ||
    (ClosedBlocks(h[..|h| - 1]) &&
     (h[|h| - 1].WriteRecord? ==> DownClosed(BlockNums(h[..|h| - 1]))))
  }

  // ---------- the conjuncts, each over the fields it speaks of ----------

  predicate ShapeOf(t: Thread, i: nat) {
    && t.rSeq == i + 1
    && (!Touches(t.req) ==> t.pc.Ready? || t.pc.Finished?)
    && (t.req.Write? ==> !t.pc.Counted? && !t.pc.Uncounted?)
    && (t.req.Write? && Rank(t.pc) >= 4 ==> t.value == t.req.value)
  }

  ghost predicate Shape(ts: seq<Thread>) {
    forall i: nat :: i < |ts| ==> ShapeOf(ts[i], i)
  }

  /** Position `k` of the arrival order holds a thread that waits exactly when `k` is not yet admitted. */
  ghost predicate FifoAt(ts: seq<Thread>, arrivals: seq<nat>, admitted: int, k: nat)
    requires k < |arrivals|
  {
    && arrivals[k] < |ts|
    && HasArrived(ts[arrivals[k]])
    && (ts[arrivals[k]].pc.Queued? <==> admitted <= k)
  }

  ghost predicate Admission(ts: seq<Thread>, arrivals: seq<nat>, admitted: int) {
    forall k: nat :: k < |arrivals| ==> FifoAt(ts, arrivals, admitted, k)
  }

  ghost predicate InOrder(ts: seq<Thread>, arrivals: seq<nat>, i: nat)
    requires i < |ts|
  {
    HasArrived(ts[i]) ==> i in arrivals
  }

  ghost predicate NoDup<T>(xs: seq<T>) {
    forall j, k :: 0 <= j < k < |xs| ==> xs[j] != xs[k]
  }

  /** The queue is the part of the arrival order not yet admitted. */
  ghost predicate Fifo(ts: seq<Thread>, queue: seq<nat>, arrivals: seq<nat>) {
    && |queue| <= |arrivals|
    && queue == arrivals[|arrivals| - |queue|..]
    && NoDup(arrivals)
    && Admission(ts, arrivals, |arrivals| - |queue|)
    && (forall i: nat :: i < |ts| ==> InOrder(ts, arrivals, i))
    && |arrivals| == |ArrivedSet(ts)|
  }

  ghost predicate LockAt(ts: seq<Thread>, lock: Lock, i: nat)
    requires i < |ts|
  {
    && (i in lock.readers <==> Holds(ts[i]) && ts[i].req.Read?)
    && (lock.writer == Some(i) <==> Holds(ts[i]) && ts[i].req.Write?)
  }

  /** The lock's holders are the threads whose counter says so; a writer excludes
      all others and is the thread admitted last. */
  ghost predicate Locking(ts: seq<Thread>, lock: Lock, arrivals: seq<nat>) {
    && (forall i :: i in lock.readers ==> i < |ts|)
    && (forall i: nat :: i < |ts| ==> LockAt(ts, lock, i))
    && (lock.writer.Some? ==>
          && lock.writer.value < |ts|
          && lock.readers == {}
          && |lock.queue| < |arrivals|
          && arrivals[|arrivals| - |lock.queue| - 1] == lock.writer.value)
  }

  /** nRead counts the readers between increment and decrement; the admitted
      threads are those that drew an sSeq and those about to. */
  ghost predicate Counting(ts: seq<Thread>, nRead: int, admitted: int, drawn: nat) {
    && nRead == |InsideSet(ts)|
    && admitted == drawn + |UndrawnSet(ts)|
  }

  ghost predicate RecordAt(ts: seq<Thread>, h: seq<Record>, k: nat)
    requires k < |h|
  {
    && h[k].sSeq == k + 1
    && 1 <= h[k].rSeq <= |ts|
    && HasDrawn(ts[h[k].rSeq - 1])
    && RecordOf(ts[h[k].rSeq - 1]) == h[k]
  }

  ghost predicate DrawnAt(ts: seq<Thread>, h: seq<Record>, i: nat)
    requires i < |ts|
  {
    HasDrawn(ts[i]) ==> 1 <= ts[i].sSeq <= |h| && h[ts[i].sSeq - 1] == RecordOf(ts[i])
  }

  /** The history is the list of drawn records, in the order of their numbers. */
  ghost predicate Numbering(ts: seq<Thread>, sSeq: int, h: seq<Record>) {
    && sSeq == |h| + 1
    && (forall k: nat :: k < |h| ==> RecordAt(ts, h, k))
    && (forall i: nat :: i < |ts| ==> DrawnAt(ts, h, i))
  }

  /** A writer has assigned val and has yet to draw its sSeq. */
  predicate WriterAhead(ts: seq<Thread>, lock: Lock) {
    && lock.writer.Some?
    && lock.writer.value < |ts|
    && ts[lock.writer.value].pc.Valued?
  }

  predicate SampleAt(t: Thread, val: int) {
    t.req.Read? && t.pc.Valued? ==> t.value == val
  }

  /** val is the register value of the history, except while a writer is ahead;
      a sampled value is still the value of val when the sSeq is drawn. */
  ghost predicate Register(ts: seq<Thread>, lock: Lock, val: int, h: seq<Record>) {
    && Legal(h)
    && val == (if WriterAhead(ts, lock) then ts[lock.writer.value].value else Current(h))
    && (forall i: nat :: i < |ts| ==> SampleAt(ts[i], val))
  }

  /** The rNums handed out since the last write are {1..m} with nRead <= m. */
  ghost predicate Nums(ts: seq<Thread>, nRead: int, h: seq<Record>) {
    && ClosedBlocks(h)
    && DownClosed(BlockNums(h) + PendingNums(ts))
    && (nRead == 0 || nRead in BlockNums(h) + PendingNums(ts))
  }

  /** The thread at arrival position `p` has a number up to `k + 1` exactly when `p <= k`. */
  ghost predicate Separates(ts: seq<Thread>, arrivals: seq<nat>, k: nat, p: nat)
    requires p < |arrivals|
  {
    && arrivals[p] < |ts|
    && (p <= k <==> HasDrawn(ts[arrivals[p]]) && ts[arrivals[p]].sSeq <= k + 1)
  }

  ghost predicate WriteAt(ts: seq<Thread>, arrivals: seq<nat>, h: seq<Record>, k: nat)
    requires k < |h|
  {
    h[k].WriteRecord? ==>
      && k < |arrivals|
      && arrivals[k] == h[k].rSeq - 1
      && forall p: nat :: p < |arrivals| ==> Separates(ts, arrivals, k, p)
  }

  /** A write's number is its arrival position, and it separates the arrivals
      before it from those after it. */
  ghost predicate Ordering(ts: seq<Thread>, arrivals: seq<nat>, h: seq<Record>) {
    forall k: nat :: k < |h| ==> WriteAt(ts, arrivals, h, k)
  }

  ghost predicate InLog(ts: seq<Thread>, h: seq<Record>, r: Record) {
    r in h && 1 <= r.rSeq <= |ts| && HasLogged(ts[r.rSeq - 1])
  }

  /** A drawn record is in the log once if its thread has logged it, else not at all. */
  ghost predicate Logging(ts: seq<Thread>, h: seq<Record>, bag: multiset<Record>) {
    forall r :: bag[r] == if InLog(ts, h, r) then 1 else 0
  }

  /** Reads and writes are logged apart. */
  ghost predicate Sorts(readLog: seq<Record>, writeLog: seq<Record>) {
    && (forall r :: r in readLog ==> r.ReadRecord?)
    && (forall r :: r in writeLog ==> r.WriteRecord?)
  }

  /** How often each record is in the log. */
  function LogBag(s: State): multiset<Record> {
    multiset(s.readLog) + multiset(s.writeLog)
  }

  /** No rNum exceeds the number of requests made. */
  ghost predicate Bounded(ts: seq<Thread>) {
    forall i: nat :: i < |ts| ==> 0 <= ts[i].rNum <= |ts|
  }

  ghost predicate Inv(s: State) {
    && |s.threads| <= s.limit
    && Shape(s.threads)
    && Bounded(s.threads)
    && Fifo(s.threads, s.lock.queue, s.arrivals)
    && Locking(s.threads, s.lock, s.arrivals)
    && Counting(s.threads, s.nRead, |s.arrivals| - |s.lock.queue|, |s.history|)
    && Numbering(s.threads, s.sSeq, s.history)
    && Register(s.threads, s.lock, s.val, s.history)
    && Nums(s.threads, s.nRead, s.history)
    && Ordering(s.threads, s.arrivals, s.history)
    && Logging(s.threads, s.history, LogBag(s))
    && Sorts(s.readLog, s.writeLog)
  }

  // ---------- it holds initially ----------

  lemma InitInv(limit: nat)
    ensures Inv(Init(limit))
  {
    var ts: seq<Thread> := [];
    assert ArrivedSet(ts) == {} && InsideSet(ts) == {} && UndrawnSet(ts) == {} && PendingNums(ts) == {};
  }

  // ---------- index sets under one update ----------

  /** The index sets change by at most `i`. */
  lemma SetsUnderUpdate(ts: seq<Thread>, i: nat, t: Thread)
    requires i < |ts|
    ensures InsideSet(ts[i := t]) == if Inside(t) then InsideSet(ts) + {i} else InsideSet(ts) - {i}
    ensures UndrawnSet(ts[i := t]) == if Undrawn(t) then UndrawnSet(ts) + {i} else UndrawnSet(ts) - {i}
    ensures ArrivedSet(ts[i := t]) == if HasArrived(t) then ArrivedSet(ts) + {i} else ArrivedSet(ts) - {i}
    ensures i in InsideSet(ts) <==> Inside(ts[i])
    ensures i in UndrawnSet(ts) <==> Undrawn(ts[i])
    ensures i in ArrivedSet(ts) <==> HasArrived(ts[i])
  {
  }

  lemma SetsUnderAppend(ts: seq<Thread>, t: Thread)
    requires t.pc.Ready?
    ensures InsideSet(ts + [t]) == InsideSet(ts)
    ensures UndrawnSet(ts + [t]) == UndrawnSet(ts)
    ensures ArrivedSet(ts + [t]) == ArrivedSet(ts)
    ensures PendingNums(ts + [t]) == PendingNums(ts)
  {
    var us := ts + [t];
    forall x | x in PendingNums(ts) ensures x in PendingNums(us) {
      var i: nat :| i < |ts| && Pending(ts[i]) && ts[i].rNum == x;
      assert us[i] == ts[i];
    }
  }

  /** What the thread at `i` contributes to the pending rNums. */
  ghost function NumOf(t: Thread): set<int> {
    if Pending(t) then {t.rNum} else {}
  }

  ghost function OtherNums(ts: seq<Thread>, i: nat): set<int> {
    set j: nat | j < |ts| && j != i && Pending(ts[j]) :: ts[j].rNum
  }

  lemma PendingSplit(ts: seq<Thread>, i: nat)
    requires i < |ts|
    ensures PendingNums(ts) == OtherNums(ts, i) + NumOf(ts[i])
  {
    forall x | x in PendingNums(ts) ensures x in OtherNums(ts, i) + NumOf(ts[i]) {
      var j: nat :| j < |ts| && Pending(ts[j]) && ts[j].rNum == x;
    }
  }

  /** Replacing one thread replaces its contribution. */
  lemma NumsUnderUpdate(ts: seq<Thread>, i: nat, t: Thread)
    requires i < |ts|
    ensures PendingNums(ts) == OtherNums(ts, i) + NumOf(ts[i])
    ensures PendingNums(ts[i := t]) == OtherNums(ts, i) + NumOf(t)
  {
    var us := ts[i := t];
    PendingSplit(ts, i);
    PendingSplit(us, i);
    forall x | x in OtherNums(ts, i) ensures x in OtherNums(us, i) {
      var j: nat :| j < |ts| && j != i && Pending(ts[j]) && ts[j].rNum == x;
      assert us[j] == ts[j];
    }
    forall x | x in OtherNums(us, i) ensures x in OtherNums(ts, i) {
      var j: nat :| j < |us| && j != i && Pending(us[j]) && us[j].rNum == x;
      assert us[j] == ts[j];
    }
  }

  // ---------- Fifo ----------

  lemma FifoFrame(ts: seq<Thread>, queue: seq<nat>, arrivals: seq<nat>, i: nat, t: Thread)
    requires Fifo(ts, queue, arrivals) && i < |ts|
    requires HasArrived(t) == HasArrived(ts[i]) && t.pc.Queued? == ts[i].pc.Queued?
    ensures Fifo(ts[i := t], queue, arrivals)
  {
    var us, g := ts[i := t], |arrivals| - |queue|;
    SetsUnderUpdate(ts, i, t);
    forall k: nat | k < |arrivals| ensures FifoAt(us, arrivals, g, k) {
      assert FifoAt(ts, arrivals, g, k);
    }
    forall j: nat | j < |us| ensures InOrder(us, arrivals, j) {
      assert InOrder(ts, arrivals, j);
    }
  }

  lemma FifoJoin(ts: seq<Thread>, queue: seq<nat>, arrivals: seq<nat>, i: nat, t: Thread)
    requires Fifo(ts, queue, arrivals) && i < |ts|
    requires !HasArrived(ts[i]) && HasArrived(t) && t.pc.Queued?
    ensures Fifo(ts[i := t], queue + [i], arrivals + [i])
  {
    var us, g, next := ts[i := t], |arrivals| - |queue|, arrivals + [i];
    SetsUnderUpdate(ts, i, t);
    assert i !in arrivals by {
      forall k: nat | k < |arrivals| ensures arrivals[k] != i {
        assert FifoAt(ts, arrivals, g, k);
      }
    }
    forall k: nat | k < |next| ensures FifoAt(us, next, g, k) {
      if k < |arrivals| { assert FifoAt(ts, arrivals, g, k); }
    }
    forall j: nat | j < |us| ensures InOrder(us, next, j) {
      assert InOrder(ts, arrivals, j);
      assert next[|arrivals|] == i;
    }
  }

  lemma FifoGrant(ts: seq<Thread>, queue: seq<nat>, arrivals: seq<nat>, i: nat, t: Thread)
    requires Fifo(ts, queue, arrivals) && i < |ts|
    requires queue != [] && queue[0] == i
    requires HasArrived(ts[i]) && HasArrived(t) && !t.pc.Queued?
    ensures Fifo(ts[i := t], queue[1..], arrivals)
  {
    var us, g := ts[i := t], |arrivals| - |queue|;
    SetsUnderUpdate(ts, i, t);
    assert arrivals[g] == i;
    var g' := g + 1;
    forall k: nat | k < |arrivals| ensures FifoAt(us, arrivals, g', k) {
      assert FifoAt(ts, arrivals, g, k);
    }
    assert Admission(us, arrivals, |arrivals| - |queue[1..]|);
    assert ArrivedSet(us) == ArrivedSet(ts);
    forall j: nat | j < |us| ensures InOrder(us, arrivals, j) {
      assert InOrder(ts, arrivals, j);
    }
  }

  // ---------- Locking ----------

  /** A line that leaves the holders alone; a newcomer may join the queue. */
  lemma LockFrame(ts: seq<Thread>, lock: Lock, arrivals: seq<nat>, i: nat, t: Thread, joining: seq<nat>)
    requires Locking(ts, lock, arrivals) && i < |ts|
    requires t.req == ts[i].req && Holds(t) == Holds(ts[i])
    ensures Locking(ts[i := t], lock.(queue := lock.queue + joining), arrivals + joining)
  {
    var us, lock' := ts[i := t], lock.(queue := lock.queue + joining);
    forall j: nat | j < |us| ensures LockAt(us, lock', j) {
      assert LockAt(ts, lock, j);
    }
  }

  lemma LockGrant(ts: seq<Thread>, lock: Lock, arrivals: seq<nat>, i: nat, t: Thread, lock': Lock)
    requires Locking(ts, lock, arrivals) && Fifo(ts, lock.queue, arrivals) && i < |ts|
    requires t.req == ts[i].req && Holds(t) && !Holds(ts[i])
    requires lock.queue != [] && lock.queue[0] == i && lock.writer.None?
    requires t.req.Write? ==> lock.readers == {}
    requires lock' == if t.req.Read? then lock.(queue := lock.queue[1..], readers := lock.readers + {i})
                      else lock.(queue := lock.queue[1..], writer := Some(i))
    ensures Locking(ts[i := t], lock', arrivals)
  {
    var us := ts[i := t];
    forall j: nat | j < |us| ensures LockAt(us, lock', j) {
      assert LockAt(ts, lock, j);
    }
  }

  lemma LockRelease(ts: seq<Thread>, lock: Lock, arrivals: seq<nat>, i: nat, t: Thread, lock': Lock)
    requires Locking(ts, lock, arrivals) && i < |ts|
    requires t.req == ts[i].req && Holds(ts[i]) && !Holds(t)
    requires lock' == if t.req.Read? then lock.(readers := lock.readers - {i}) else lock.(writer := None)
    ensures Locking(ts[i := t], lock', arrivals)
  {
    var us := ts[i := t];
    assert LockAt(ts, lock, i);
    forall j: nat | j < |us| ensures LockAt(us, lock', j) {
      assert LockAt(ts, lock, j);
    }
  }

  // ---------- Numbering and Logging ----------

  lemma NumberFrame(ts: seq<Thread>, sSeq: int, h: seq<Record>, i: nat, t: Thread)
    requires Numbering(ts, sSeq, h) && i < |ts|
    requires HasDrawn(t) == HasDrawn(ts[i])
    requires HasDrawn(t) ==> RecordOf(t) == RecordOf(ts[i])
    ensures Numbering(ts[i := t], sSeq, h)
  {
    var us := ts[i := t];
    forall k: nat | k < |h| ensures RecordAt(us, h, k) {
      assert RecordAt(ts, h, k);
    }
    forall j: nat | j < |us| ensures DrawnAt(us, h, j) {
      assert DrawnAt(ts, h, j);
    }
  }

  lemma NumberDraw(ts: seq<Thread>, sSeq: int, h: seq<Record>, i: nat, t: Thread)
    requires Numbering(ts, sSeq, h) && i < |ts|
    requires !HasDrawn(ts[i]) && HasDrawn(t) && t.sSeq == sSeq && t.rSeq == i + 1
    ensures Numbering(ts[i := t], sSeq + 1, h + [RecordOf(t)])
  {
    var us, h' := ts[i := t], h + [RecordOf(t)];
    forall k: nat | k < |h'| ensures RecordAt(us, h', k) {
      if k < |h| { assert RecordAt(ts, h, k); }
    }
    forall j: nat | j < |us| ensures DrawnAt(us, h', j) {
      assert DrawnAt(ts, h, j);
    }
  }

  /** Neither drawing a number nor any later line but the append changes the log. */
  lemma LogFrame(ts: seq<Thread>, h: seq<Record>, bag: multiset<Record>, i: nat, t: Thread, drawn: seq<Record>)
    requires Logging(ts, h, bag) && i < |ts|
    requires HasLogged(t) == HasLogged(ts[i])
    requires drawn == [] || (!HasLogged(t) && |drawn| == 1 && drawn[0].rSeq == i + 1)
    ensures Logging(ts[i := t], h + drawn, bag)
  {
    var us := ts[i := t];
    forall r ensures InLog(us, h + drawn, r) == InLog(ts, h, r) {
    }
  }

  lemma LogAppend(ts: seq<Thread>, sSeq: int, h: seq<Record>, bag: multiset<Record>, i: nat, t: Thread)
    requires Logging(ts, h, bag) && Numbering(ts, sSeq, h) && i < |ts|
    requires HasDrawn(ts[i]) && !HasLogged(ts[i]) && HasLogged(t) && ts[i].rSeq == i + 1
    ensures Logging(ts[i := t], h, bag + multiset{RecordOf(ts[i])})
  {
    var us, q := ts[i := t], RecordOf(ts[i]);
    assert DrawnAt(ts, h, i);
    forall r ensures (bag + multiset{q})[r] == if InLog(us, h, r) then 1 else 0 {
      if r in h {
        var k: nat :| k < |h| && h[k] == r;
        assert RecordAt(ts, h, k);
      }
    }
  }

  // ---------- Register ----------

  lemma RegisterFrame(ts: seq<Thread>, lock: Lock, lock': Lock, val: int, h: seq<Record>, i: nat, t: Thread)
    requires Register(ts, lock, val, h) && i < |ts| && t.req == ts[i].req
    requires t.pc.Valued? ==> t.req.Read? && t.value == val
    requires !(ts[i].pc.Valued? && t.req.Write?)
    requires lock.writer.Some? && lock.writer.value < |ts| ==> ts[lock.writer.value].req.Write?
    requires lock'.writer == lock.writer
          || (lock.writer.None? && lock'.writer == Some(i) && t.req.Write?)
          || (lock.writer == Some(i) && lock'.writer.None?)
    ensures Register(ts[i := t], lock', val, h)
  {
  }

  /** A writer sets val: it holds the lock alone, so nobody keeps a sample. */
  lemma RegisterWrite(ts: seq<Thread>, lock: Lock, val: int, h: seq<Record>, i: nat, t: Thread)
    requires Register(ts, lock, val, h) && i < |ts| && t.req == ts[i].req
    requires forall j: nat :: j < |ts| ==> LockAt(ts, lock, j)
    requires lock.writer == Some(i) && lock.readers == {} && t.pc.Valued?
    ensures Register(ts[i := t], lock, t.value, h)
  {
    var us := ts[i := t];
    forall j: nat | j < |us| ensures SampleAt(us[j], t.value) {
      assert LockAt(ts, lock, j);
      assert LockAt(ts, lock, i);
    }
  }

  lemma RegisterDraw(ts: seq<Thread>, lock: Lock, val: int, h: seq<Record>, i: nat, t: Thread)
    requires Register(ts, lock, val, h) && i < |ts| && t.req == ts[i].req && Touches(t.req)
    requires forall j: nat :: j < |ts| ==> LockAt(ts, lock, j)
    requires lock.writer.Some? ==> lock.writer.value < |ts| && lock.readers == {}
    requires ts[i].pc.Valued? && t.pc.Drawn? && t.value == ts[i].value
    ensures Register(ts[i := t], lock, val, h + [RecordOf(t)])
  {
    var h' := h + [RecordOf(t)];
    assert h'[..|h'| - 1] == h;
    assert LockAt(ts, lock, i);
    assert SampleAt(ts[i], val);
  }

  // ---------- Nums ----------

  lemma NumsFrame(ts: seq<Thread>, nRead: int, h: seq<Record>, i: nat, t: Thread)
    requires Nums(ts, nRead, h) && i < |ts| && NumOf(t) == NumOf(ts[i])
    ensures Nums(ts[i := t], nRead, h)
  {
    NumsUnderUpdate(ts, i, t);
  }

  lemma NumsCount(ts: seq<Thread>, nRead: nat, h: seq<Record>, i: nat, t: Thread)
    requires Nums(ts, nRead, h) && i < |ts| && !Pending(ts[i]) && Pending(t) && t.rNum == nRead + 1
    ensures Nums(ts[i := t], nRead + 1, h)
  {
    hide BlockNums, PendingNums, OtherNums, DownClosed;
    NumsUnderUpdate(ts, i, t);
    assert BlockNums(h) + PendingNums(ts[i := t]) == BlockNums(h) + PendingNums(ts) + {nRead + 1};
    NextNum(BlockNums(h) + PendingNums(ts), nRead);
  }

  lemma NextNum(nums: set<int>, n: nat)
    requires DownClosed(nums) && (n == 0 || n in nums)
    ensures DownClosed(nums + {n + 1})
  {
  }

  /** A read that draws moves its rNum from the pending ones to the block. */
  lemma NumsRead(ts: seq<Thread>, nRead: int, h: seq<Record>, i: nat, t: Thread)
    requires Nums(ts, nRead, h) && i < |ts| && Pending(ts[i]) && !Pending(t)
    requires t.req.Read? && t.rNum == ts[i].rNum
    ensures Nums(ts[i := t], nRead, h + [RecordOf(t)])
  {
    NumsUnderUpdate(ts, i, t);
    var h' := h + [RecordOf(t)];
    assert h'[..|h'| - 1] == h;
    assert BlockNums(h') + PendingNums(ts[i := t]) == BlockNums(h) + PendingNums(ts);
  }

  /** A write that draws closes the block: no reader is inside. */
  lemma NumsWrite(ts: seq<Thread>, h: seq<Record>, i: nat, t: Thread)
    requires Nums(ts, 0, h) && i < |ts| && PendingNums(ts) == {} && t.req.Write?
    ensures Nums(ts[i := t], 0, h + [RecordOf(t)])
  {
    NumsUnderUpdate(ts, i, t);
    var h' := h + [RecordOf(t)];
    assert h'[..|h'| - 1] == h;
    assert BlockNums(h) + PendingNums(ts) == BlockNums(h);
    assert BlockNums(h') + PendingNums(ts[i := t]) == {};
  }

  /** A decrement keeps nRead within the numbers handed out. */
  lemma NumsUncount(ts: seq<Thread>, nRead: int, h: seq<Record>, i: nat, t: Thread)
    requires Nums(ts, nRead, h) && i < |ts| && NumOf(t) == NumOf(ts[i]) && nRead > 0
    ensures Nums(ts[i := t], nRead - 1, h)
  {
    NumsUnderUpdate(ts, i, t);
  }

  // ---------- Ordering ----------

  lemma OrderFrame(ts: seq<Thread>, arrivals: seq<nat>, h: seq<Record>, i: nat, t: Thread)
    requires Ordering(ts, arrivals, h) && i < |ts|
    requires HasDrawn(t) == HasDrawn(ts[i]) && t.sSeq == ts[i].sSeq
    ensures Ordering(ts[i := t], arrivals, h)
  {
    var us := ts[i := t];
    forall k: nat | k < |h| ensures WriteAt(us, arrivals, h, k) {
      assert WriteAt(ts, arrivals, h, k);
      if h[k].WriteRecord? {
        forall p: nat | p < |arrivals| ensures Separates(us, arrivals, k, p) {
          assert Separates(ts, arrivals, k, p);
        }
      }
    }
  }

  lemma OrderJoin(ts: seq<Thread>, arrivals: seq<nat>, h: seq<Record>, i: nat, t: Thread)
    requires Ordering(ts, arrivals, h) && i < |ts| && !HasDrawn(ts[i]) && !HasDrawn(t)
    ensures Ordering(ts[i := t], arrivals + [i], h)
  {
    var us, next := ts[i := t], arrivals + [i];
    forall k: nat | k < |h| ensures WriteAt(us, next, h, k) {
      assert WriteAt(ts, arrivals, h, k);
      if h[k].WriteRecord? {
        forall p: nat | p < |next| ensures Separates(us, next, k, p) {
          if p < |arrivals| { assert Separates(ts, arrivals, k, p); }
        }
      }
    }
  }

  /** A read draws: it arrived after every write that has drawn. */
  lemma OrderRead(ts: seq<Thread>, arrivals: seq<nat>, h: seq<Record>, i: nat, t: Thread)
    requires Ordering(ts, arrivals, h) && i < |ts| && !HasDrawn(ts[i])
    requires t.req.Read? && t.sSeq == |h| + 1
    ensures Ordering(ts[i := t], arrivals, h + [RecordOf(t)])
  {
    var us, h' := ts[i := t], h + [RecordOf(t)];
    forall k: nat | k < |h'| ensures WriteAt(us, arrivals, h', k) {
      if k < |h| && h[k].WriteRecord? {
        assert WriteAt(ts, arrivals, h, k);
        forall p: nat | p < |arrivals| ensures Separates(us, arrivals, k, p) {
          assert Separates(ts, arrivals, k, p);
        }
      }
    }
  }

  /** A write draws: exactly the threads admitted before it have drawn. */
  lemma OrderWrite(ts: seq<Thread>, arrivals: seq<nat>, sSeq: int, h: seq<Record>, admitted: int, i: nat, t: Thread)
    requires Ordering(ts, arrivals, h) && i < |ts| && !HasDrawn(ts[i])
    requires Numbering(ts, sSeq, h) && Admission(ts, arrivals, admitted)
    requires t.req.Write? && t.rSeq == i + 1 && t.sSeq == |h| + 1
    requires UndrawnSet(ts) == {i} && HasDrawn(t)
    requires admitted == |h| + 1 <= |arrivals| && arrivals[|h|] == i && NoDup(arrivals)
    ensures Ordering(ts[i := t], arrivals, h + [RecordOf(t)])
  {
    var us, h' := ts[i := t], h + [RecordOf(t)];
    forall p: nat | p < |arrivals| ensures Separates(us, arrivals, |h|, p) {
      assert FifoAt(ts, arrivals, admitted, p);
      var j := arrivals[p];
      assert j in UndrawnSet(ts) <==> Undrawn(ts[j]);
      assert DrawnAt(ts, h, j);
    }
    forall k: nat | k < |h'| ensures WriteAt(us, arrivals, h', k) {
      if k < |h| && h[k].WriteRecord? {
        assert WriteAt(ts, arrivals, h, k);
        forall p: nat | p < |arrivals| ensures Separates(us, arrivals, k, p) {
          assert Separates(ts, arrivals, k, p);
        }
      }
    }
  }

  // ---------- one line keeps everything ----------

  lemma FifoStep(s: State, i: nat, s': State)
    requires CanStep(s, i) && s' == Step(s, i) && ShapeOf(s.threads[i], i)
    requires Fifo(s.threads, s.lock.queue, s.arrivals)
    ensures Fifo(s'.threads, s'.lock.queue, s'.arrivals)
  {
    var ts, t, t' := s.threads, s.threads[i], s'.threads[i];
    if t.pc.Ready? && Touches(t.req) {
      FifoJoin(ts, s.lock.queue, s.arrivals, i, t');
    } else if t.pc.Queued? {
      FifoGrant(ts, s.lock.queue, s.arrivals, i, t');
    } else {
      FifoFrame(ts, s.lock.queue, s.arrivals, i, t');
    }
  }

  lemma LockStep(s: State, i: nat, s': State)
    requires CanStep(s, i) && s' == Step(s, i) && ShapeOf(s.threads[i], i)
    requires Fifo(s.threads, s.lock.queue, s.arrivals) && Locking(s.threads, s.lock, s.arrivals)
    ensures Locking(s'.threads, s'.lock, s'.arrivals)
  {
    var ts, t, t' := s.threads, s.threads[i], s'.threads[i];
    if t.pc.Ready? && Touches(t.req) {
      LockFrame(ts, s.lock, s.arrivals, i, t', [i]);
    } else if t.pc.Queued? {
      LockGrant(ts, s.lock, s.arrivals, i, t', s'.lock);
    } else if t.pc.Uncounted? || (t.pc.Drawn? && t.req.Write?) {
      LockRelease(ts, s.lock, s.arrivals, i, t', s'.lock);
    } else {
      LockFrame(ts, s.lock, s.arrivals, i, t', []);
      assert s.lock.queue + [] == s.lock.queue && s.arrivals + [] == s.arrivals;
    }
  }

  function One(b: bool): int { if b then 1 else 0 }

  lemma CountUpdate(ts: seq<Thread>, i: nat, t: Thread)
    requires i < |ts|
    ensures |InsideSet(ts[i := t])| == |InsideSet(ts)| + One(Inside(t)) - One(Inside(ts[i]))
    ensures |UndrawnSet(ts[i := t])| == |UndrawnSet(ts)| + One(Undrawn(t)) - One(Undrawn(ts[i]))
  {
    SetsUnderUpdate(ts, i, t);
  }

  lemma CountStep(s: State, i: nat, s': State)
    requires CanStep(s, i) && s' == Step(s, i) && ShapeOf(s.threads[i], i)
    requires Counting(s.threads, s.nRead, |s.arrivals| - |s.lock.queue|, |s.history|)
    ensures Counting(s'.threads, s'.nRead, |s'.arrivals| - |s'.lock.queue|, |s'.history|)
  {
    CountUpdate(s.threads, i, s'.threads[i]);
  }

  lemma ShapeStep(s: State, i: nat, s': State)
    requires CanStep(s, i) && s' == Step(s, i)
    requires Shape(s.threads) && |s.threads| <= s.limit
    ensures Shape(s'.threads) && |s'.threads| <= s'.limit
  {
  }

  ghost function Indices(n: nat): (all: set<nat>)
    ensures |all| == n && forall j: nat :: j in all <==> j < n
  {
    if n == 0 then {} else Indices(n - 1) + {n - 1}
  }

  /** The readers inside, without the newcomer, are fewer than the requests made. */
  lemma RoomInside(ts: seq<Thread>, i: nat)
    requires i < |ts| && !Inside(ts[i])
    ensures |InsideSet(ts)| < |ts|
  {
    var all := Indices(|ts|);
    assert all * InsideSet(ts) == InsideSet(ts);
    assert |all - InsideSet(ts)| + |all * InsideSet(ts)| == |all|;
    assert i in all - InsideSet(ts);
  }

  lemma BoundedStep(s: State, i: nat, s': State)
    requires CanStep(s, i) && s' == Step(s, i) && Bounded(s.threads)
    requires s.nRead == |InsideSet(s.threads)|
    ensures Bounded(s'.threads)
  {
    if s.threads[i].pc.Holding? {
      RoomInside(s.threads, i);
    }
  }

  lemma NumberStep(s: State, i: nat, s': State)
    requires CanStep(s, i) && s' == Step(s, i) && ShapeOf(s.threads[i], i)
    requires Numbering(s.threads, s.sSeq, s.history)
    ensures Numbering(s'.threads, s'.sSeq, s'.history)
  {
    var ts, t, t' := s.threads, s.threads[i], s'.threads[i];
    if t.pc.Valued? {
      NumberDraw(ts, s.sSeq, s.history, i, t');
    } else {
      NumberFrame(ts, s.sSeq, s.history, i, t');
    }
  }

  lemma SortsStep(s: State, i: nat, s': State)
    requires CanStep(s, i) && s' == Step(s, i) && ShapeOf(s.threads[i], i)
    requires Sorts(s.readLog, s.writeLog)
    ensures Sorts(s'.readLog, s'.writeLog)
  {
  }

  lemma LogStep(s: State, i: nat, s': State)
    requires CanStep(s, i) && s' == Step(s, i) && ShapeOf(s.threads[i], i)
    requires Numbering(s.threads, s.sSeq, s.history)
    requires Logging(s.threads, s.history, LogBag(s)) && Sorts(s.readLog, s.writeLog)
    ensures Logging(s'.threads, s'.history, LogBag(s'))
    ensures Sorts(s'.readLog, s'.writeLog)
  {
    hide Logging, Numbering, Sorts;
    SortsStep(s, i, s');
    var ts, t, t' := s.threads, s.threads[i], s'.threads[i];
    if t.pc.Unlocked? {
      LogAppend(ts, s.sSeq, s.history, LogBag(s), i, t');
      assert LogBag(s') == LogBag(s) + multiset{RecordOf(t)};
    } else if t.pc.Valued? {
      LogFrame(ts, s.history, LogBag(s), i, t', [RecordOf(t')]);
    } else {
      LogFrame(ts, s.history, LogBag(s), i, t', []);
      assert s.history + [] == s.history;
    }
  }

  lemma RegisterStep(s: State, i: nat, s': State)
    requires CanStep(s, i) && s' == Step(s, i) && ShapeOf(s.threads[i], i)
    requires Locking(s.threads, s.lock, s.arrivals)
    requires Register(s.threads, s.lock, s.val, s.history)
    ensures Register(s'.threads, s'.lock, s'.val, s'.history)
  {
    var ts, t, t' := s.threads, s.threads[i], s'.threads[i];
    assert LockAt(ts, s.lock, i);
    if s.lock.writer.Some? { assert LockAt(ts, s.lock, s.lock.writer.value); }
    if t.pc.Valued? {
      RegisterDraw(ts, s.lock, s.val, s.history, i, t');
    } else if t.pc.Holding? && t.req.Write? {
      RegisterWrite(ts, s.lock, s.val, s.history, i, t');
    } else {
      RegisterFrame(ts, s.lock, s'.lock, s.val, s.history, i, t');
    }
  }

  /** A writer that holds the lock holds it alone. */
  lemma WriterAlone(s: State, w: nat)
    requires Inv(s) && w < |s.threads| && Holds(s.threads[w]) && s.threads[w].req.Write?
    ensures s.lock.writer == Some(w) && s.lock.readers == {}
    ensures forall j: nat :: j < |s.threads| && Holds(s.threads[j]) ==> j == w
    ensures s.nRead == 0 && PendingNums(s.threads) == {}
    ensures UndrawnSet(s.threads) <= {w}
  {
    assert LockAt(s.threads, s.lock, w);
    forall j: nat | j < |s.threads| && Holds(s.threads[j]) ensures j == w {
      assert LockAt(s.threads, s.lock, j);
    }
    assert InsideSet(s.threads) == {};
  }

  /** A line that draws a number: a read moves its rNum into the block, a write closes it. */
  lemma NumsDraw(s: State, i: nat, s': State)
    requires CanStep(s, i) && s' == Step(s, i) && s.threads[i].pc.Valued?
    requires Nums(s.threads, s.nRead, s.history)
    requires s.threads[i].req.Write? ==> s.nRead == 0 && PendingNums(s.threads) == {}
    ensures Nums(s'.threads, s'.nRead, s'.history)
  {
    hide Nums;
    if s.threads[i].req.Read? {
      NumsRead(s.threads, s.nRead, s.history, i, s'.threads[i]);
    } else {
      NumsWrite(s.threads, s.history, i, s'.threads[i]);
    }
  }

  /** Any other line: only a reader's increment and decrement concern the numbers. */
  lemma NumsOther(s: State, i: nat, s': State)
    requires CanStep(s, i) && s' == Step(s, i) && ShapeOf(s.threads[i], i) && !s.threads[i].pc.Valued?
    requires Nums(s.threads, s.nRead, s.history) && s.nRead == |InsideSet(s.threads)|
    ensures Nums(s'.threads, s'.nRead, s'.history)
  {
    hide Nums;
    var ts, t, t' := s.threads, s.threads[i], s'.threads[i];
    if t.pc.Holding? && t.req.Read? {
      NumsCount(ts, s.nRead, s.history, i, t');
    } else if t.pc.Drawn? && t.req.Read? {
      assert i in InsideSet(ts);
      NumsUncount(ts, s.nRead, s.history, i, t');
    } else {
      NumsFrame(ts, s.nRead, s.history, i, t');
    }
  }

  /** A write that draws comes after all that arrived before it. */
  lemma OrderDraw(s: State, i: nat, s': State)
    requires CanStep(s, i) && s' == Step(s, i) && s.threads[i].pc.Valued? && ShapeOf(s.threads[i], i)
    requires Ordering(s.threads, s.arrivals, s.history) && Numbering(s.threads, s.sSeq, s.history)
    requires s.sSeq == |s.history| + 1
    requires s.threads[i].req.Write? ==>
               && Admission(s.threads, s.arrivals, |s.history| + 1)
               && UndrawnSet(s.threads) == {i}
               && |s.history| < |s.arrivals| && s.arrivals[|s.history|] == i && NoDup(s.arrivals)
    ensures Ordering(s'.threads, s'.arrivals, s'.history)
  {
    hide Ordering, Numbering, Admission, NoDup;
    if s.threads[i].req.Read? {
      OrderRead(s.threads, s.arrivals, s.history, i, s'.threads[i]);
    } else {
      OrderWrite(s.threads, s.arrivals, s.sSeq, s.history, |s.history| + 1, i, s'.threads[i]);
    }
  }

  lemma OrderOther(s: State, i: nat, s': State)
    requires CanStep(s, i) && s' == Step(s, i) && ShapeOf(s.threads[i], i) && !s.threads[i].pc.Valued?
    requires Ordering(s.threads, s.arrivals, s.history)
    ensures Ordering(s'.threads, s'.arrivals, s'.history)
  {
    hide Ordering;
    if s.threads[i].pc.Ready? && Touches(s.threads[i].req) {
      OrderJoin(s.threads, s.arrivals, s.history, i, s'.threads[i]);
    } else {
      OrderFrame(s.threads, s.arrivals, s.history, i, s'.threads[i]);
    }
  }

  /** A writer about to draw is the thread admitted last, and all admitted before it have drawn. */
  lemma WriterIsNext(s: State, w: nat)
    requires Inv(s) && w < |s.threads| && Undrawn(s.threads[w]) && s.threads[w].req.Write?
    ensures UndrawnSet(s.threads) == {w} && |s.arrivals| - |s.lock.queue| == |s.history| + 1
    ensures |s.history| < |s.arrivals| && s.arrivals[|s.history|] == w
  {
    WriterAlone(s, w);
    assert w in UndrawnSet(s.threads);
    assert UndrawnSet(s.threads) == {w};
  }

  lemma HistoryStep(s: State, i: nat, s': State)
    requires Inv(s) && i < |s.threads| && CanStep(s, i) && s' == Step(s, i)
    ensures Nums(s'.threads, s'.nRead, s'.history)
    ensures Ordering(s'.threads, s'.arrivals, s'.history)
  {
    hide Step, CanStep, Nums, Ordering, Admission, NoDup, Register, Logging;
    assert ShapeOf(s.threads[i], i);
    if s.threads[i].pc.Valued? {
      if s.threads[i].req.Write? {
        WriterAlone(s, i);
        WriterIsNext(s, i);
      }
      NumsDraw(s, i, s');
      OrderDraw(s, i, s');
    } else {
      NumsOther(s, i, s');
      OrderOther(s, i, s');
    }
  }

  lemma StepInv(s: State, i: nat)
    requires Inv(s) && CanStep(s, i)
    ensures Inv(Step(s, i))
  {
    var s' := Step(s, i);
    ShapeStep(s, i, s');
    FifoStep(s, i, s');
    LockStep(s, i, s');
    CountStep(s, i, s');
    BoundedStep(s, i, s');
    NumberStep(s, i, s');
    RegisterStep(s, i, s');
    HistoryStep(s, i, s');
    LogStep(s, i, s');
  }

  lemma ArriveInv(s: State, req: Request)
    requires Inv(s) && |s.threads| < s.limit
    ensures Inv(Arrive(s, req))
  {
    var ts, t := s.threads, Thread(req, |s.threads| + 1, Ready, 0, 0, 0);
    SetsUnderAppend(ts, t);
    ArriveFifo(ts, s.lock.queue, s.arrivals, t);
    ArriveLock(ts, s.lock, s.arrivals, t);
    ArriveHistory(ts, s.sSeq, s.history, s.arrivals, LogBag(s), t);
    ArriveRegister(ts, s.lock, s.val, s.history, s.arrivals, t);
    assert LogBag(Arrive(s, req)) == LogBag(s);
  }

  lemma ArriveFifo(ts: seq<Thread>, queue: seq<nat>, arrivals: seq<nat>, t: Thread)
    requires Fifo(ts, queue, arrivals) && t.pc.Ready?
    ensures Fifo(ts + [t], queue, arrivals)
  {
    var us, g := ts + [t], |arrivals| - |queue|;
    SetsUnderAppend(ts, t);
    forall k: nat | k < |arrivals| ensures FifoAt(us, arrivals, g, k) {
      assert FifoAt(ts, arrivals, g, k);
    }
    forall j: nat | j < |us| ensures InOrder(us, arrivals, j) {
      if j < |ts| { assert InOrder(ts, arrivals, j); }
    }
  }

  lemma ArriveLock(ts: seq<Thread>, lock: Lock, arrivals: seq<nat>, t: Thread)
    requires Locking(ts, lock, arrivals) && t.pc.Ready?
    ensures Locking(ts + [t], lock, arrivals)
  {
    var us := ts + [t];
    forall j: nat | j < |us| ensures LockAt(us, lock, j) {
      if j < |ts| { assert LockAt(ts, lock, j); }
    }
  }

  lemma ArriveHistory(ts: seq<Thread>, sSeq: int, h: seq<Record>, arrivals: seq<nat>, bag: multiset<Record>, t: Thread)
    requires Numbering(ts, sSeq, h) && Ordering(ts, arrivals, h) && Logging(ts, h, bag) && t.pc.Ready?
    ensures Numbering(ts + [t], sSeq, h) && Ordering(ts + [t], arrivals, h) && Logging(ts + [t], h, bag)
  {
    var us := ts + [t];
    forall k: nat | k < |h| ensures RecordAt(us, h, k) && WriteAt(us, arrivals, h, k) {
      assert RecordAt(ts, h, k) && WriteAt(ts, arrivals, h, k);
      if h[k].WriteRecord? {
        forall p: nat | p < |arrivals| ensures Separates(us, arrivals, k, p) {
          assert Separates(ts, arrivals, k, p);
        }
      }
    }
    forall j: nat | j < |us| ensures DrawnAt(us, h, j) {
      if j < |ts| { assert DrawnAt(ts, h, j); }
    }
    forall r ensures InLog(us, h, r) == InLog(ts, h, r) {
    }
  }

  lemma ArriveRegister(ts: seq<Thread>, lock: Lock, val: int, h: seq<Record>, arrivals: seq<nat>, t: Thread)
    requires Register(ts, lock, val, h) && Locking(ts, lock, arrivals) && t.pc.Ready?
    ensures Register(ts + [t], lock, val, h)
  {
  }

  /** Every state of every run of at most `limit` requests satisfies the invariant. */
  lemma {:induction false} RunInv(s: State, es: seq<Event>, t: State)
    requires Inv(s) && Exec(s, es) == Some(t)
    ensures Inv(t) && t.limit == s.limit
  {
    if es != [] {
      var u, e := Exec(s, es[..|es| - 1]).value, es[|es| - 1];
      RunInv(s, es[..|es| - 1], u);
      match e
      case Call(req) => ArriveInv(u, req);
      case Line(i) => StepInv(u, i);
    }
  }
}
