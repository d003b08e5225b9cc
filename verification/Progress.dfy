/** Deadlock freedom, termination and real-time order. */
module Progress {
  import opened Wrappers
  import opened Records
  import opened Text
  import opened Codec
  import opened Protocol
  import opened Invariants
  import opened Theorems

  // ---------- how many events a run has ----------

  /** The lines a thread has executed. */
  function LinesDone(t: Thread): nat {
    if t.pc.Finished? then LinesOf(t.req)
    else if t.req.Write? && Rank(t.pc) >= 7 then Rank(t.pc) - 2
    else if t.req.Write? && Rank(t.pc) >= 4 then Rank(t.pc) - 1
    else Rank(t.pc)
  }

  /** The lines of a whole call: nine for a read, seven for a write, one otherwise. */
  function LinesOf(req: Request): nat {
    match req
    case Read(_) => 9
    case Write(_, _) => 7
    case _ => 1
  }

  /** The events so far: one per call made and one per line executed. */
  function Elapsed(ts: seq<Thread>): nat {
    if ts == [] then 0
    else Elapsed(ts[..|ts| - 1]) + 1 + LinesDone(ts[|ts| - 1])
  }

  lemma {:induction false} ElapsedUpdate(ts: seq<Thread>, i: nat, t: Thread)
    requires i < |ts|
    ensures Elapsed(ts[i := t]) == Elapsed(ts) - LinesDone(ts[i]) + LinesDone(t)
  {
    var front := ts[..|ts| - 1];
    if i < |ts| - 1 {
      assert ts[i := t][..|ts| - 1] == front[i := t];
      ElapsedUpdate(front, i, t);
    } else {
      assert ts[i := t][..|ts| - 1] == front;
    }
  }

  lemma {:induction false} ElapsedBound(ts: seq<Thread>)
    requires Shape(ts)
    ensures Elapsed(ts) <= 10 * |ts|
  {
    if ts != [] {
      ElapsedBound(ts[..|ts| - 1]);
    }
  }

  /** What is left to do; every event makes it smaller. */
  function Remaining(s: State): int {
    10 * s.limit - Elapsed(s.threads)
  }

  lemma RemainingNat(s: State)
    requires Inv(s)
    ensures Remaining(s) >= 0
  {
    ElapsedBound(s.threads);
  }

  lemma LineCosts(s: State, i: nat)
    requires CanStep(s, i) && ShapeOf(s.threads[i], i)
    ensures LinesDone(Step(s, i).threads[i]) == LinesDone(s.threads[i]) + 1
    ensures Step(s, i).threads == s.threads[i := Step(s, i).threads[i]]
    ensures Step(s, i).limit == s.limit
  {
  }

  lemma EventCosts(s: State, e: Event)
    requires Shape(s.threads) && CanDo(s, e)
    ensures Remaining(Do(s, e)) == Remaining(s) - 1
  {
    match e
    case Call(req) =>
      var next := Do(s, e).threads;
      assert next[..|next| - 1] == s.threads;
    case Line(i) =>
      LineCosts(s, i);
      ElapsedUpdate(s.threads, i, Step(s, i).threads[i]);
  }

  /** The length of a run is determined by where it ends, and bounded by ten events a request. */
  lemma {:induction false} RunLength(n: nat, es: seq<Event>, t: State)
    requires Exec(Init(n), es) == Some(t)
    ensures |es| == Elapsed(t.threads) <= 10 * n
  {
    InitInv(n);
    RunInv(Init(n), es, t);
    RemainingNat(t);
    if es != [] {
      var front := es[..|es| - 1];
      var u := Exec(Init(n), front).value;
      RunInv(Init(n), front, u);
      RunLength(n, front, u);
      EventCosts(u, es[|es| - 1]);
    }
  }

  // ---------- no deadlock ----------

  /** All requests that will ever be made have been made and have ended. */
  predicate Complete(s: State) {
    |s.threads| == s.limit && Quiet(s)
  }

  /** As long as a request made so far has not ended, some thread can move. */
  lemma SomeLine(s: State) returns (i: nat)
    requires Inv(s) && !Quiet(s)
    ensures CanStep(s, i)
  {
    i :| i < |s.threads| && !s.threads[i].pc.Finished?;
    assert ShapeOf(s.threads[i], i);
    if s.threads[i].pc.Queued? {
      i := QueueMoves(s, i);
    }
  }

  /** If a thread waits, the first in the queue is admitted or a holder moves. */
  lemma QueueMoves(s: State, i: nat) returns (j: nat)
    requires Inv(s) && i < |s.threads| && s.threads[i].pc.Queued? && Touches(s.threads[i].req)
    ensures CanStep(s, j) && 1 <= Rank(s.threads[j].pc) <= 6 && Touches(s.threads[j].req)
  {
    var g := |s.arrivals| - |s.lock.queue|;
    assert InOrder(s.threads, s.arrivals, i);
    var k: nat :| k < |s.arrivals| && s.arrivals[k] == i;
    assert FifoAt(s.threads, s.arrivals, g, k);
    j := s.lock.queue[0];
    assert s.arrivals[g] == j;
    assert FifoAt(s.threads, s.arrivals, g, g);
    if !CanAcquire(s, j) {
      if s.lock.writer.Some? {
        j := s.lock.writer.value;
      } else {
        j :| j in s.lock.readers;
      }
      assert LockAt(s.threads, s.lock, j);
    }
  }

  lemma ReachableMoves(s: State) returns (i: nat)
    requires Reachable(s) && !Quiet(s)
    ensures CanStep(s, i)
  {
    ReachableInv(s);
    i := SomeLine(s);
  }

  /** A reachable state has no next event exactly when all requests are made and ended. */
  lemma DeadlockFree(t: State)
    requires Reachable(t)
    ensures (forall e :: !CanDo(t, e)) <==> Complete(t)
  {
    ReachableInv(t);
    if |t.threads| < t.limit {
      assert CanDo(t, Call(Ignored));
    } else if !Quiet(t) {
      var i := SomeLine(t);
      assert CanDo(t, Line(i));
    }
  }

  // ---------- the requests of a run ----------

  /** The requests of all threads. */
  function Requests(ts: seq<Thread>): seq<Request> {
    seq(|ts|, i requires 0 <= i < |ts| => ts[i].req)
  }

  /** How many of the requests reach the shared object. */
  function Touching(reqs: seq<Request>): nat {
    if reqs == [] then 0
    else Touching(reqs[..|reqs| - 1]) + if Touches(reqs[|reqs| - 1]) then 1 else 0
  }

  /** The threads whose requests reach the shared object. */
  ghost function TouchingSet(ts: seq<Thread>): set<nat> {
    set i: nat | i < |ts| && Touches(ts[i].req)
  }

  lemma {:induction false} TouchingCount(ts: seq<Thread>)
    ensures |TouchingSet(ts)| == Touching(Requests(ts))
  {
    if ts == [] {
      assert TouchingSet(ts) == {};
    } else {
      var n, front := |ts| - 1, ts[..|ts| - 1];
      TouchingCount(front);
      assert Requests(ts)[..n] == Requests(front);
      assert TouchingSet(ts) == if Touches(ts[n].req) then TouchingSet(front) + {n as nat} else TouchingSet(front);
    }
  }

  // ---------- where runs end ----------

  lemma SettledLock(t: State)
    requires Inv(t) && Settled(t.threads)
    ensures t.lock == Lock(None, {}, [])
  {
    var g := |t.arrivals| - |t.lock.queue|;
    assert t.lock.queue != [] ==> FifoAt(t.threads, t.arrivals, g, g);
    assert t.lock.queue == [];
    forall i: nat | i < |t.threads| ensures i !in t.lock.readers {
      assert LockAt(t.threads, t.lock, i);
    }
    assert t.lock.readers == {};
    assert t.lock.writer.Some? ==> LockAt(t.threads, t.lock, t.lock.writer.value);
  }

  lemma SettledSets(ts: seq<Thread>)
    requires Settled(ts)
    ensures InsideSet(ts) == {} && UndrawnSet(ts) == {} && ArrivedSet(ts) == TouchingSet(ts)
  {
  }

  /** Once every request that reaches the object is logged, the lock is free, no reader
      is counted, and the number of records is the number of these requests. */
  lemma SettledState(t: State)
    requires Reachable(t) && Settled(t.threads)
    ensures t.lock == Lock(None, {}, []) && t.nRead == 0
    ensures |t.history| == |t.readLog| + |t.writeLog| == Touching(Requests(t.threads))
    ensures t.sSeq == Touching(Requests(t.threads)) + 1
    ensures t.val == Current(t.history)
  {
    ReachableInv(t);
    SettledLock(t);
    SettledSets(t.threads);
    SettledLog(t);
    TouchingCount(t.threads);
    assert |LogBag(t)| == |t.history|;
  }

  // ---------- runs that a scheduler can bring about ----------

  /** What a scheduler wants of a thread: that it stays where it is, that it leaves the
      lock and stops before the append, or that it ends. */
  datatype Goal = Stay | Unlock | End

  /** The thread neither waits for the lock nor holds it. */
  predicate Apart(t: Thread) {
    t.pc.Ready? || Rank(t.pc) >= 7
  }

  predicate Met(goal: Goal, t: Thread) {
    match goal
    case Stay => Apart(t)
    case Unlock => Rank(t.pc) >= 7
    case End => t.pc.Finished?
  }

  /** The thread `t` with the goal met, having started as `s`. */
  predicate Reached(goal: Goal, s: Thread, t: Thread) {
    && t.req == s.req
    && Met(goal, t)
    && (goal.Stay? ==> t == s)
    && (goal.Unlock? && Touches(s.req) && Rank(s.pc) <= 7 ==> t.pc.Unlocked?)
  }

  ghost predicate Steers(goals: seq<Goal>, ts: seq<Thread>, us: seq<Thread>) {
    && |goals| == |ts| == |us|
    && forall i :: 0 <= i < |ts| ==> Reached(goals[i], ts[i], us[i])
  }

  /** Threads that stay where they are block nobody as long as they stand apart from the
      lock: every other thread can be run to its goal. */
  lemma {:induction false} RunTo(s: State, goals: seq<Goal>) returns (t: State)
    requires Inv(s) && |goals| == |s.threads|
    requires forall i :: 0 <= i < |goals| && goals[i].Stay? ==> Apart(s.threads[i])
    ensures Leads(s, t) && t.limit == s.limit && Steers(goals, s.threads, t.threads)
    decreases Remaining(s)
  {
    hide Leads, Step, Remaining, CanAcquire, Numbering, Fifo, Locking;
    LeadsRefl(s);
    if i: nat :| i < |goals| && !Met(goals[i], s.threads[i]) {
      assert ShapeOf(s.threads[i], i);
      var j := i;
      if s.threads[i].pc.Queued? {
        j := QueueMoves(s, i);
      }
      var u := OneStep(s, j);
      t := RunTo(u, goals);
      LeadsTrans(s, u, t);
    } else {
      t := s;
    }
  }

  /** A line touches its own thread only, and leaves it at the unlock at the latest
      if it starts under the lock or before it. */
  lemma StepTouches(s: State, i: nat)
    requires Inv(s) && CanStep(s, i)
    ensures Shape(s.threads) && Step(s, i).limit == s.limit
    ensures i < |s.threads| == |Step(s, i).threads|
    ensures Step(s, i).threads == s.threads[i := Step(s, i).threads[i]]
    ensures Step(s, i).threads[i].req == s.threads[i].req
    ensures Touches(s.threads[i].req) && Rank(s.threads[i].pc) <= 6 ==> Rank(Step(s, i).threads[i].pc) <= 7
  {
    assert ShapeOf(s.threads[i], i);
  }

  lemma LineLeads(s: State, i: nat)
    requires Shape(s.threads) && CanStep(s, i)
    ensures Leads(s, Step(s, i)) && Remaining(Step(s, i)) == Remaining(s) - 1
  {
    hide Step, CanStep, Remaining, Leads;
    EventCosts(s, Line(i));
    LeadsRefl(s);
    LeadsStep(s, s, Line(i));
  }

  lemma OneStep(s: State, i: nat) returns (u: State)
    requires Inv(s) && CanStep(s, i)
    ensures Inv(u) && Leads(s, u) && u.limit == s.limit && 0 <= Remaining(u) < Remaining(s)
    ensures i < |s.threads| == |u.threads|
    ensures u.threads == s.threads[i := u.threads[i]] && u.threads[i].req == s.threads[i].req
    ensures Touches(s.threads[i].req) && Rank(s.threads[i].pc) <= 6 ==> Rank(u.threads[i].pc) <= 7
  {
    hide Step, CanStep, Inv, Leads, Remaining;
    u := Step(s, i);
    StepInv(s, i);
    StepTouches(s, i);
    LineLeads(s, i);
    RemainingNat(u);
  }

  /** A run from any state can be continued without new requests until all have ended. */
  lemma Drain(s: State) returns (t: State)
    requires Inv(s)
    ensures Leads(s, t) && Quiet(t) && t.limit == s.limit
    ensures Requests(t.threads) == Requests(s.threads)
  {
    var goals := seq(|s.threads|, _ => End);
    t := RunTo(s, goals);
    forall i | 0 <= i < |t.threads| ensures t.threads[i].pc.Finished? && t.threads[i].req == s.threads[i].req {
      assert Reached(goals[i], s.threads[i], t.threads[i]);
    }
  }

  /** All requests can be made before any of them does anything. */
  lemma {:induction false} CallAll(reqs: seq<Request>, limit: nat) returns (t: State)
    requires |reqs| <= limit
    ensures Reachable(t) && t.limit == limit && Requests(t.threads) == reqs
    ensures forall i :: 0 <= i < |t.threads| ==> t.threads[i].pc.Ready?
  {
    if reqs == [] {
      t := Init(limit);
      LeadsRefl(t);
    } else {
      var n := |reqs| - 1;
      var s := CallAll(reqs[..n], limit);
      assert |s.threads| == |Requests(s.threads)| == n;
      t := Arrive(s, reqs[n]);
      LeadsStep(Init(limit), s, Call(reqs[n]));
      assert reqs == reqs[..n] + [reqs[n]];
    }
  }

  // ---------- real time ----------

  /** What any continuation of a run preserves. */
  ghost predicate Later(s: State, t: State) {
    && |s.threads| <= |t.threads|
    && s.history <= t.history && s.readLog <= t.readLog && s.writeLog <= t.writeLog
    && forall i :: 0 <= i < |s.threads| ==>
         && t.threads[i].req == s.threads[i].req
         && t.threads[i].rSeq == s.threads[i].rSeq
         && Rank(t.threads[i].pc) >= Rank(s.threads[i].pc)
         && (HasDrawn(s.threads[i]) ==>
               HasDrawn(t.threads[i]) && RecordOf(t.threads[i]) == RecordOf(s.threads[i]))
  }

  lemma LaterDo(s: State, u: State, e: Event)
    requires Later(s, u) && CanDo(u, e)
    ensures Later(s, Do(u, e))
  {
    hide Later, Do, CanDo;
    DoIsLater(u, e);
    LaterTrans(s, u, Do(u, e));
  }

  lemma DoIsLater(u: State, e: Event)
    requires CanDo(u, e)
    ensures Later(u, Do(u, e))
  {
    match e
    case Call(_) =>
    case Line(i) =>
      LineKeepsLists(u, i);
      LineKeepsThread(u, i);
      hide Step, CanStep;
  }

  lemma LineKeepsLists(u: State, i: nat)
    requires CanStep(u, i)
    ensures u.history <= Step(u, i).history
    ensures u.readLog <= Step(u, i).readLog && u.writeLog <= Step(u, i).writeLog
  {
  }

  lemma LineKeepsThread(u: State, i: nat)
    requires CanStep(u, i)
    ensures i < |u.threads| == |Step(u, i).threads|
    ensures Step(u, i).threads == u.threads[i := Step(u, i).threads[i]]
    ensures
      var t, t' := u.threads[i], Step(u, i).threads[i];
      && t'.req == t.req && t'.rSeq == t.rSeq && Rank(t'.pc) >= Rank(t.pc)
      && (HasDrawn(t) ==> HasDrawn(t') && RecordOf(t') == RecordOf(t))
  {
  }

  lemma LaterTrans(s: State, u: State, t: State)
    requires Later(s, u) && Later(u, t)
    ensures Later(s, t)
  {
  }

  lemma {:induction false} RunLater(s: State, es: seq<Event>, t: State)
    requires Exec(s, es) == Some(t)
    ensures Later(s, t)
  {
    if es != [] {
      var u := Exec(s, es[..|es| - 1]).value;
      RunLater(s, es[..|es| - 1], u);
      LaterDo(s, u, es[|es| - 1]);
    }
  }

  /** A thread that is not among those of the history `hs` has a number above it. */
  lemma NumberAbove(ss: seq<Thread>, hs: seq<Record>, ts: seq<Thread>, ht: seq<Record>, i: nat)
    requires forall k: nat :: k < |hs| ==> RecordAt(ss, hs, k)
    requires |hs| <= |ht| && hs == ht[..|hs|]
    requires i < |ts| && HasDrawn(ts[i]) && DrawnAt(ts, ht, i) && ts[i].rSeq == i + 1
    requires i < |ss| ==> !HasDrawn(ss[i])
    ensures |hs| < ts[i].sSeq <= |ht| && ht[ts[i].sSeq - 1] == RecordOf(ts[i])
  {
    var k := ts[i].sSeq - 1;
    assert k < |hs| ==> hs[k] == ht[k] && RecordAt(ss, hs, k);
  }

  /** A request that has not drawn yet will draw a number above all numbers drawn so far. */
  lemma DrawnLater(s: State, t: State, i: nat)
    requires Reachable(s) && Leads(s, t)
    requires i < |t.threads| && HasDrawn(t.threads[i])
    requires i < |s.threads| ==> !HasDrawn(s.threads[i])
    ensures |s.history| < t.threads[i].sSeq <= |t.history|
    ensures t.history[t.threads[i].sSeq - 1] == RecordOf(t.threads[i])
  {
    Continued(s, t);
    ReachableNumbers(s);
    ReachableNumbers(t);
    assert DrawnAt(t.threads, t.history, i) && ShapeOf(t.threads[i], i);
    NumberAbove(s.threads, s.history, t.threads, t.history, i);
  }

  lemma ReachableNumbers(t: State)
    requires Reachable(t)
    ensures Shape(t.threads) && Numbering(t.threads, t.sSeq, t.history)
  {
    ReachableInv(t);
  }

  lemma Continued(s: State, t: State)
    requires Reachable(s) && Leads(s, t)
    ensures Reachable(t) && Later(s, t) && t.limit == s.limit
  {
    var es :| Exec(s, es) == Some(t);
    RunLater(s, es, t);
    ReachableInv(s);
    RunInv(s, es, t);
    LeadsTrans(Init(s.limit), s, t);
  }

  /** Real-time order: when request `a` has drawn its number before request `b` is
      made, both numbers of `a` are smaller, whatever happens in between. */
  lemma RealTimeOrder(s: State, t: State, a: nat, b: nat)
    requires Reachable(s) && Leads(s, t)
    requires a < |s.threads| && HasDrawn(s.threads[a])
    requires |s.threads| <= b < |t.threads| && HasDrawn(t.threads[b])
    ensures a < |t.threads| && HasDrawn(t.threads[a])
    ensures t.threads[a].rSeq < t.threads[b].rSeq
    ensures t.threads[a].sSeq < t.threads[b].sSeq
  {
    Continued(s, t);
    ReachableNumbers(s);
    ReachableNumbers(t);
    assert DrawnAt(s.threads, s.history, a);
    assert ShapeOf(t.threads[a], a) && ShapeOf(t.threads[b], b);
    assert RecordOf(t.threads[a]) == RecordOf(s.threads[a]);
    DrawnLater(s, t, b);
  }

  // ---------- the counters fit into an int ----------

  ghost predicate RequestsInRange(ts: seq<Thread>) {
    forall i :: 0 <= i < |ts| ==> InRange(ts[i].req)
  }

  lemma {:induction false} CurrentInRange(h: seq<Record>)
    requires forall k :: 0 <= k < |h| && h[k].WriteRecord? ==> Int32(h[k].oVal)
    ensures Int32(Current(h))
  {
    if h != [] {
      CurrentInRange(h[..|h| - 1]);
    }
  }

  lemma HistoryFits(t: State)
    requires Inv(t)
    ensures |t.history| <= |t.threads| <= t.limit
  {
    var all := Indices(|t.threads|);
    SubsetSize(ArrivedSet(t.threads), all);
  }

  lemma WritesInRange(t: State, k: nat)
    requires Reachable(t) && RequestsInRange(t.threads) && k < |t.history| && t.history[k].WriteRecord?
    ensures Int32(t.history[k].oVal)
  {
    ReachableNumbers(t);
    assert RecordAt(t.threads, t.history, k);
    var i := t.history[k].rSeq - 1;
    assert ShapeOf(t.threads[i], i);
  }

  /** If all N requests have 32-bit arguments and N + 1 is a 32-bit int, no counter wraps
      and every field of every record is a 32-bit int. */
  lemma CountersFit(t: State)
    requires Reachable(t) && t.limit < INT_MAX && RequestsInRange(t.threads)
    ensures Int32(t.sSeq) && Int32(|t.threads| + 1) && 0 <= t.nRead <= |t.threads|
    ensures forall k :: 0 <= k < |t.history| ==> AllInt32(Fields(t.history[k]))
  {
    ReachableInv(t);
    HistoryFits(t);
    SubsetSize(InsideSet(t.threads), Indices(|t.threads|));
    forall k: nat | k < |t.history| ensures AllInt32(Fields(t.history[k])) {
      RecordFits(t, k);
    }
  }

  lemma RecordFits(t: State, k: nat)
    requires Reachable(t) && t.limit < INT_MAX && RequestsInRange(t.threads) && k < |t.history|
    ensures AllInt32(Fields(t.history[k]))
  {
    forall j: nat | j < k && t.history[..k][j].WriteRecord? ensures Int32(t.history[..k][j].oVal) {
      WritesInRange(t, j);
    }
    CurrentInRange(t.history[..k]);
    if t.history[k].WriteRecord? {
      WritesInRange(t, k);
    }
    ReachableInv(t);
    HistoryFits(t);
    FieldsFit(t, k);
  }

  lemma FieldsFit(t: State, k: nat)
    requires Inv(t) && k < |t.history| <= |t.threads| <= t.limit < INT_MAX && RequestsInRange(t.threads)
    requires Int32(Current(t.history[..k])) && (t.history[k].WriteRecord? ==> Int32(t.history[k].oVal))
    ensures AllInt32(Fields(t.history[k]))
  {
    assert RecordAt(t.threads, t.history, k);
    var r := t.history[k];
    var i := r.rSeq - 1;
    assert InRange(t.threads[i].req) && 0 <= t.threads[i].rNum <= |t.threads|;
    if r.ReadRecord? {
      LegalAt(t.history, k);
    }
  }

  // ---------- whole runs ----------

  /** The events of whole calls: the call itself and its lines. */
  function Cost(ts: seq<Thread>): nat {
    if ts == [] then 0 else Cost(ts[..|ts| - 1]) + 1 + LinesOf(ts[|ts| - 1].req)
  }

  lemma {:induction false} QuietCost(ts: seq<Thread>)
    requires forall i :: 0 <= i < |ts| ==> ts[i].pc.Finished?
    ensures Elapsed(ts) == Cost(ts)
  {
    if ts != [] {
      QuietCost(ts[..|ts| - 1]);
    }
  }

  lemma RunReaches(n: nat, es: seq<Event>, t: State)
    requires Exec(Init(n), es) == Some(t)
    ensures Reachable(t) && t.limit == n
  {
    InitInv(n);
    RunInv(Init(n), es, t);
  }

  /** Every run of N requests that cannot be continued has served them all: it has one
      event per call and line, the lock is free, nRead is 0, and if all N requests reach
      the object, sSeq is N + 1 and N records are logged. */
  lemma {:induction false} MaximalRun(n: nat, es: seq<Event>, t: State)
    requires Exec(Init(n), es) == Some(t) && forall e :: !CanDo(t, e)
    ensures |t.threads| == n && Quiet(t) && |es| == Cost(t.threads) <= 10 * n
    ensures t.lock == Lock(None, {}, []) && t.nRead == 0
    ensures (forall i :: 0 <= i < n ==> Touches(t.threads[i].req)) ==>
              t.sSeq == n + 1 && |t.history| == |t.readLog| + |t.writeLog| == n
  {
    hide Exec, CanDo, Reachable;
    RunReaches(n, es, t);
    DeadlockFree(t);
    RunLength(n, es, t);
    QuietCost(t.threads);
    SettledState(t);
    if forall i :: 0 <= i < n ==> Touches(t.threads[i].req) {
      TouchingCount(t.threads);
      assert TouchingSet(t.threads) == Indices(n);
    }
  }
}
