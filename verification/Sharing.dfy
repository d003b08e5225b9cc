/** What the lock lets happen: readers share it, and nobody waits without a reason. */
module Sharing {
  import opened Wrappers
  import opened Records
  import opened Protocol
  import opened Invariants
  import opened Theorems
  import opened Progress

  // ---------- admission, from any reachable state ----------

  /** The thread at the head of the queue waits. */
  lemma HeadWaits(s: State)
    requires Reachable(s) && s.lock.queue != []
    ensures s.lock.queue[0] < |s.threads| && s.threads[s.lock.queue[0]].pc.Queued?
    ensures Touches(s.threads[s.lock.queue[0]].req)
  {
    ReachableLocking(s);
    var g := |s.arrivals| - |s.lock.queue|;
    assert s.arrivals[g] == s.lock.queue[0];
    assert FifoAt(s.threads, s.arrivals, g, g);
  }

  /** A reader at the head of the queue can be admitted whenever no writer holds, however
      many readers hold: it joins them. */
  lemma ReaderJoins(s: State, i: nat) returns (t: State)
    requires Reachable(s) && s.lock.writer.None? && s.lock.queue != [] && s.lock.queue[0] == i
    requires i < |s.threads| && s.threads[i].req.Read?
    ensures Leads(s, t) && t == s.(lock := Lock(None, s.lock.readers + {i}, s.lock.queue[1..]),
                                   threads := s.threads[i := s.threads[i].(pc := Holding)])
  {
    hide Reachable, Leads;
    HeadWaits(s);
    t := Do(s, Line(i));
    LeadsRefl(s);
    LeadsStep(s, s, Line(i));
  }

  /** A writer at the head of the queue can be admitted whenever nobody holds. */
  lemma WriterEnters(s: State, i: nat) returns (t: State)
    requires Reachable(s) && s.lock.writer.None? && s.lock.readers == {} && s.lock.queue != [] && s.lock.queue[0] == i
    requires i < |s.threads| && s.threads[i].req.Write?
    ensures Leads(s, t) && t == s.(lock := Lock(Some(i), {}, s.lock.queue[1..]),
                                   threads := s.threads[i := s.threads[i].(pc := Holding)])
  {
    hide Reachable, Leads;
    HeadWaits(s);
    t := Do(s, Line(i));
    LeadsRefl(s);
    LeadsStep(s, s, Line(i));
  }

  /** The lock is the only thing a thread ever waits for: at any other line it can go on
      while all others stand still. */
  lemma GoesOn(s: State, i: nat) returns (t: State)
    requires Reachable(s) && i < |s.threads| && !s.threads[i].pc.Queued? && !s.threads[i].pc.Finished?
    ensures Leads(s, t) && |t.threads| == |s.threads| && t.threads == s.threads[i := t.threads[i]]
    ensures t.threads[i].req == s.threads[i].req && Rank(t.threads[i].pc) > Rank(s.threads[i].pc)
  {
    hide Reachable, Leads;
    ReachableNumbers(s);
    assert ShapeOf(s.threads[i], i);
    t := Do(s, Line(i));
    LeadsRefl(s);
    LeadsStep(s, s, Line(i));
  }

  // ---------- any number of readers at once ----------

  predicate AllReads(reqs: seq<Request>) {
    forall i :: 0 <= i < |reqs| ==> reqs[i].Read?
  }

  ghost predicate CountedAs(t: Thread, i: nat) {
    t.pc.Counted? && t.rNum == i + 1
  }

  /** The first `k` readers hold the lock together and have their numbers, the others
      have not begun. */
  ghost predicate Gathered(s: State, reqs: seq<Request>, k: nat) {
    && Reachable(s) && s.limit == |reqs| && Requests(s.threads) == reqs && k <= |s.threads|
    && (forall i: nat :: i < k ==> CountedAs(s.threads[i], i))
    && (forall i :: k <= i < |s.threads| ==> s.threads[i].pc.Ready?)
    && s.lock == Lock(None, Indices(k), []) && s.nRead == k && s.history == []
  }

  lemma {:induction false} Gather(reqs: seq<Request>, k: nat) returns (s: State)
    requires AllReads(reqs) && k <= |reqs|
    ensures Gathered(s, reqs, k)
  {
    if k == 0 {
      s := CallAll(reqs, |reqs|);
      Unbegun(s);
    } else {
      var u := Gather(reqs, k - 1);
      s := OneMoreReader(u, reqs, k - 1);
    }
  }

  /** Where no call has begun the lock is free and nothing is counted or drawn. */
  lemma Unbegun(s: State)
    requires Reachable(s) && forall i :: 0 <= i < |s.threads| ==> s.threads[i].pc.Ready?
    ensures s.lock == Lock(None, {}, []) && s.nRead == 0 && s.history == []
  {
    MutualExclusion(s);
    ReachableLocking(s);
    if s.lock.queue != [] { HeadWaits(s); }
    forall i: nat | i < |s.threads| ensures i !in s.lock.readers && s.lock.writer != Some(i) {
      assert LockAt(s.threads, s.lock, i);
    }
    assert s.lock.readers == {};
    assert InsideSet(s.threads) == {};
    if s.history != [] { DrawnOnce(s, 0); }
  }

  /** One more reader asks for the lock, gets it and takes its number. */
  lemma OneMoreReader(s: State, reqs: seq<Request>, k: nat) returns (t: State)
    requires Gathered(s, reqs, k) && AllReads(reqs) && k < |reqs|
    ensures Gathered(t, reqs, k + 1)
  {
    hide Reachable, Leads;
    assert |Requests(s.threads)| == |s.threads| && Requests(s.threads)[k] == s.threads[k].req;
    var u := Enters(s, k);
    t := u;
    assert Requests(t.threads) == reqs;
    assert Indices(k + 1) == Indices(k) + {k};
    forall i: nat | i < k + 1 ensures CountedAs(t.threads[i], i) {
      if i < k { assert CountedAs(s.threads[i], i); }
    }
  }

  /** A reader that finds the queue empty and no writer gets in and takes the next number. */
  lemma Enters(s: State, k: nat) returns (t: State)
    requires Reachable(s) && k < |s.threads| && s.threads[k].req.Read? && s.threads[k].pc.Ready?
    requires s.lock.writer.None? && s.lock.queue == []
    ensures Reachable(t) && t.limit == s.limit && t.history == s.history
    ensures t.threads == s.threads[k := s.threads[k].(pc := Counted, rNum := s.nRead + 1)]
    ensures t.lock == Lock(None, s.lock.readers + {k}, []) && t.nRead == s.nRead + 1
  {
    hide Reachable, Leads;
    var u := Do(s, Line(k));
    LeadsStep(Init(s.limit), s, Line(k)) by { FromInit(s); }
    FromInit'(s.limit, u);
    assert u.lock.queue == [k];
    var v := Do(u, Line(k));
    LeadsStep(Init(s.limit), u, Line(k));
    assert v.lock.queue == [];
    t := Do(v, Line(k));
    LeadsStep(Init(s.limit), v, Line(k));
    FromInit'(s.limit, t);
  }

  lemma FromInit(s: State)
    requires Reachable(s)
    ensures Leads(Init(s.limit), s)
  {
  }

  lemma FromInit'(limit: nat, s: State)
    requires s.limit == limit && Leads(Init(limit), s)
    ensures Reachable(s)
  {
  }

  /** The readers have drawn up to `k`, in the order of their numbers. */
  ghost predicate DrawnInOrder(s: State, reqs: seq<Request>, k: nat) {
    && Reachable(s) && s.limit == |reqs| && Requests(s.threads) == reqs && k <= |s.threads|
    && (forall i: nat :: k <= i < |s.threads| ==> CountedAs(s.threads[i], i))
    && |s.history| == k && forall i :: 0 <= i < k ==> s.history[i].ReadRecord? && s.history[i].rNum == i + 1
  }

  lemma {:induction false} DrawInOrder(s: State, reqs: seq<Request>, k: nat) returns (t: State)
    requires Gathered(s, reqs, |reqs|) && AllReads(reqs) && k <= |reqs|
    ensures DrawnInOrder(t, reqs, k) && Leads(s, t)
  {
    hide Reachable, Leads;
    if k == 0 {
      t := s;
      LeadsRefl(s);
    } else {
      var u := DrawInOrder(s, reqs, k - 1);
      assert |Requests(u.threads)| == |u.threads| && Requests(u.threads)[k - 1] == u.threads[k - 1].req;
      assert CountedAs(u.threads[k - 1], k - 1);
      var v := Do(u, Line(k - 1));
      t := Do(v, Line(k - 1));
      LeadsStep(s, u, Line(k - 1));
      LeadsStep(s, v, Line(k - 1));
      LeadsStep(Init(s.limit), u, Line(k - 1)) by { FromInit(u); }
      LeadsStep(Init(s.limit), v, Line(k - 1));
      FromInit'(s.limit, t);
      assert Requests(t.threads) == reqs;
      forall i: nat | k <= i < |t.threads| ensures CountedAs(t.threads[i], i) {
        assert CountedAs(u.threads[i], i);
      }
    }
  }

  /** For every list of reads there is a moment of some run at which all of them hold the
      lock together, and this run can end with the reader counts 1..n in its history. */
  lemma ReadersShare(reqs: seq<Request>) returns (s: State, t: State)
    requires AllReads(reqs)
    ensures Reachable(s) && s.limit == |reqs| && Requests(s.threads) == reqs
    ensures |s.lock.readers| == |reqs| == s.nRead && forall i: nat :: i < |reqs| ==> i in s.lock.readers
    ensures Leads(s, t) && Quiet(t) && Requests(t.threads) == reqs
    ensures |t.history| == |reqs| && forall k :: 0 <= k < |reqs| ==> t.history[k].ReadRecord? && t.history[k].rNum == k + 1
  {
    hide Reachable, Leads, Inv, CountedAs, Later;
    s := Gather(reqs, |reqs|);
    var u := DrawInOrder(s, reqs, |reqs|);
    ReachableInv(u);
    t := Drain(u);
    KeepsHistory(u, t);
    LeadsTrans(s, u, t);
    SettledState(t);
    AllReadsTouch(reqs);
  }

  lemma KeepsHistory(s: State, t: State)
    requires Reachable(s) && Leads(s, t)
    ensures Reachable(t) && s.history <= t.history
  {
    Continued(s, t);
  }

  lemma {:induction false} AllReadsTouch(reqs: seq<Request>)
    requires AllReads(reqs)
    ensures Touching(reqs) == |reqs|
  {
    if reqs != [] {
      AllReadsTouch(reqs[..|reqs| - 1]);
    }
  }
}
