/** When the log is in the order of sSeq: the append follows the unlock, so two requests
    of one kind can be logged in either order. */
module LogOrder {
  import opened Records
  import opened Protocol
  import opened Invariants
  import opened Theorems
  import opened Progress
  import opened Codec

  predicate Asks(kind: RequestType, req: Request) {
    match kind
    case READ => req.Read?
    case WRITE => req.Write?
  }

  function LogOf(t: State, kind: RequestType): seq<Record> {
    match kind
    case READ => t.readLog
    case WRITE => t.writeLog
  }

  /** A run of exactly these requests that has ended. */
  ghost predicate CompletedRun(reqs: seq<Request>, t: State) {
    Reachable(t) && t.limit == |reqs| && Requests(t.threads) == reqs && Quiet(t)
  }

  predicate AtMostOne(kind: RequestType, reqs: seq<Request>) {
    forall a, b :: 0 <= a < b < |reqs| ==> !(Asks(kind, reqs[a]) && Asks(kind, reqs[b]))
  }

  /** Every run of the requests leaves the log of one kind in the order of sSeq exactly
      if no two of the requests are of that kind. */
  lemma LogSortedExactly(kind: RequestType, reqs: seq<Request>)
    ensures (forall t :: CompletedRun(reqs, t) ==> SortedBySSeq(LogOf(t, kind))) <==> AtMostOne(kind, reqs)
  {
    if AtMostOne(kind, reqs) {
      forall t | CompletedRun(reqs, t) ensures SortedBySSeq(LogOf(t, kind)) {
        if |LogOf(t, kind)| >= 2 { TwoLogged(t, kind); }
      }
    } else {
      var a, b :| 0 <= a < b < |reqs| && Asks(kind, reqs[a]) && Asks(kind, reqs[b]);
      var t, i := OutOfOrder(kind, reqs, a, b);
      assert CompletedRun(reqs, t) && !SortedBySSeq(LogOf(t, kind));
    }
  }

  /** Two places of the log belong to two requests. */
  lemma TwoLogged(t: State, kind: RequestType)
    requires Reachable(t) && |LogOf(t, kind)| >= 2
    ensures !AtMostOne(kind, Requests(t.threads))
  {
    hide Reachable;
    var a := LoggedBy(t, kind, 0);
    var b := LoggedBy(t, kind, 1);
    if a == b {
      TwiceInLog(t, kind, 0, 1);
      NothingElse(t);
    }
    assert Requests(t.threads)[a] == t.threads[a].req && Requests(t.threads)[b] == t.threads[b].req;
  }

  lemma TwiceInLog(t: State, kind: RequestType, i: nat, j: nat)
    requires i < j < |LogOf(t, kind)| && LogOf(t, kind)[i] == LogOf(t, kind)[j]
    ensures LogBag(t)[LogOf(t, kind)[i]] >= 2
  {
    var log := LogOf(t, kind);
    assert log == log[..j] + log[j..];
    assert log[i] in log[..j] && log[j] in log[j..];
    assert multiset(log) == multiset(log[..j]) + multiset(log[j..]);
  }

  lemma LoggedBy(t: State, kind: RequestType, i: nat) returns (a: nat)
    requires Reachable(t) && i < |LogOf(t, kind)|
    ensures a < |t.threads| && Asks(kind, t.threads[a].req) && RecordOf(t.threads[a]) == LogOf(t, kind)[i]
  {
    hide Reachable;
    NothingElse(t);
    ReachableNumbers(t);
    ReachableSorts(t);
    var r := LogOf(t, kind)[i];
    assert r in LogOf(t, kind) && r in LogBag(t);
    var k: nat :| k < |t.history| && t.history[k] == r;
    assert RecordAt(t.threads, t.history, k);
    a := r.rSeq - 1;
  }

  lemma ReachableSorts(t: State)
    requires Reachable(t)
    ensures Sorts(t.readLog, t.writeLog)
  {
    ReachableInv(t);
  }

  /** A run in which `a` draws its number before `b` and is logged right after it. */
  lemma OutOfOrder(kind: RequestType, reqs: seq<Request>, a: nat, b: nat) returns (t: State, i: nat)
    requires a < |reqs| && b < |reqs| && a != b && Asks(kind, reqs[a]) && Asks(kind, reqs[b])
    ensures CompletedRun(reqs, t) && i + 1 < |LogOf(t, kind)|
    ensures LogOf(t, kind)[i].rSeq == b + 1 && LogOf(t, kind)[i + 1].rSeq == a + 1
    ensures LogOf(t, kind)[i].sSeq > LogOf(t, kind)[i + 1].sSeq
  {
    hide Reachable, Leads, Inv, Quiet, Step, CanStep;
    var s := CallAll(reqs, |reqs|);
    var u := Unlocks(s, a);
    var v := Unlocks(u, b);
    var w := AppendTwo(v, kind, b, a);
    i := |LogOf(v, kind)|;
    Continued(v, w);
    ReachableInv(w);
    t := Drain(w);
    Continued(w, t);
  }

  /** All other threads wait while thread `a` runs up to its append. */
  lemma Unlocks(s: State, a: nat) returns (t: State)
    requires Reachable(s) && a < |s.threads| && s.threads[a].pc.Ready? && Touches(s.threads[a].req)
    requires forall i :: 0 <= i < |s.threads| && i != a ==> Apart(s.threads[i])
    ensures Reachable(t) && Leads(s, t) && t.limit == s.limit && |t.threads| == |s.threads|
    ensures t.threads == s.threads[a := t.threads[a]]
    ensures t.threads[a].req == s.threads[a].req && t.threads[a].rSeq == a + 1 && t.threads[a].pc.Unlocked?
    ensures |s.history| < t.threads[a].sSeq <= |t.history|
  {
    ReachableInv(s);
    var goals := seq(|s.threads|, i => if i == a then Unlock else Stay);
    t := RunTo(s, goals);
    Continued(s, t);
    forall i | 0 <= i < |t.threads| ensures Reached(goals[i], s.threads[i], t.threads[i]) {
    }
    DrawnLater(s, t, a);
    ReachableNumbers(t);
    assert ShapeOf(t.threads[a], a);
  }

  lemma AppendTwo(s: State, kind: RequestType, b: nat, a: nat) returns (t: State)
    requires Reachable(s) && a < |s.threads| && b < |s.threads| && a != b
    requires s.threads[a].pc.Unlocked? && Asks(kind, s.threads[a].req)
    requires s.threads[b].pc.Unlocked? && Asks(kind, s.threads[b].req)
    ensures Leads(s, t) && Requests(t.threads) == Requests(s.threads)
    ensures LogOf(t, kind) == LogOf(s, kind) + [RecordOf(s.threads[b]), RecordOf(s.threads[a])]
  {
    LeadsRefl(s);
    var u := Step(s, b);
    LeadsStep(s, s, Line(b));
    t := Step(u, a);
    LeadsStep(s, u, Line(a));
  }

  /** Two reads can leave the records numbered 2, 1 in the log. */
  lemma TwoReadsReversed() returns (t: State)
    ensures CompletedRun([Read(1), Read(2)], t)
    ensures |t.readLog| == 2 && t.readLog[0].sSeq == 2 && t.readLog[1].sSeq == 1
  {
    var reqs := [Read(1), Read(2)];
    var i;
    t, i := OutOfOrder(READ, reqs, 0, 1);
    SettledState(t);
    assert reqs[..1] == [Read(1)] && Touching(reqs) == 2;
    Logged(t, t.readLog[0]);
    Logged(t, t.readLog[1]);
  }

  lemma Logged(t: State, r: Record)
    requires Reachable(t) && r in t.readLog
    ensures 1 <= r.sSeq <= |t.history|
  {
    NothingElse(t);
    ReachableNumbers(t);
    assert r in LogBag(t);
    var k: nat :| k < |t.history| && t.history[k] == r;
    assert RecordAt(t.threads, t.history, k);
  }
}
