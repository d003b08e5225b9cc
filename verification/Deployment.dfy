/** The whole system: the configuration, the clients it launches, the server and the
    file it publishes. */
module Deployment {
  import opened Wrappers
  import opened Records
  import opened Text
  import opened Codec
  import opened Protocol
  import opened Invariants
  import opened Theorems
  import opened Progress
  import opened Logs
  import opened SharedObject
  import opened SocketServer
  import opened RmiServer
  import opened Clients
  import opened Configuration

  datatype Participant = Participant(kind: RequestType, id: int)

  function AskedBy(p: Participant): Request {
    ClientRequest(p.kind, p.id)
  }

  function MineOf(h: seq<Record>, p: Participant): seq<Record> {
    Mine(h, p.kind, p.id)
  }

  function RequestsOf(reqs: seq<Request>, p: Participant): nat {
    if reqs == [] then 0
    else RequestsOf(reqs[..|reqs| - 1], p) + if reqs[|reqs| - 1] == AskedBy(p) then 1 else 0
  }

  predicate FromFleet(req: Request, fleet: seq<Participant>) {
    exists p :: p in fleet && req == AskedBy(p)
  }

  /** Every request is one of the fleet, and each participant makes `a` of them. */
  ghost predicate Workload(reqs: seq<Request>, fleet: seq<Participant>, a: nat) {
    && (forall i :: 0 <= i < |reqs| ==> FromFleet(reqs[i], fleet))
    && (forall p :: p in fleet ==> RequestsOf(reqs, p) == a)
  }

  /** The participants' parts of the history, put together as a bag. */
  function Together(h: seq<Record>, fleet: seq<Participant>): multiset<Record> {
    if fleet == [] then multiset{}
    else Together(h, fleet[..|fleet| - 1]) + multiset(MineOf(h, fleet[|fleet| - 1]))
  }

  /** The log is the disjoint union of the participants' parts of the history, each of
      `a` records, and its file has one row for each of them and seven lines of heads. */
  ghost predicate FleetServed(t: State, fleet: seq<Participant>, a: nat) {
    && (forall p :: p in fleet ==> |MineOf(t.history, p)| == a)
    && LogBag(t) == Together(t.history, fleet)
    && (forall r :: r in LogBag(t) ==> LogBag(t)[r] == 1)
    && |t.readLog| + |t.writeLog| == |t.history| == |fleet| * a
  }

  // ---------- counting one participant's records ----------

  ghost predicate DistinctCalls(h: seq<Record>) {
    forall j, k :: 0 <= j < k < |h| ==> h[j].rSeq != h[k].rSeq
  }

  /** The rSeqs of the participant's records. */
  ghost function CallsIn(h: seq<Record>, p: Participant): set<int> {
    set k | 0 <= k < |h| && IsMine(h[k], p.kind, p.id) :: h[k].rSeq
  }

  lemma {:induction false} MineCount(h: seq<Record>, p: Participant)
    requires DistinctCalls(h)
    ensures |MineOf(h, p)| == |CallsIn(h, p)|
  {
    if h == [] {
      assert CallsIn(h, p) == {};
    } else {
      MineCount(h[..|h| - 1], p);
      CallsInSnoc(h, p);
    }
  }

  lemma CallsInSnoc(h: seq<Record>, p: Participant)
    requires h != [] && DistinctCalls(h)
    ensures
      var front, last := CallsIn(h[..|h| - 1], p), h[|h| - 1];
      && last.rSeq !in front
      && CallsIn(h, p) == if IsMine(last, p.kind, p.id) then front + {last.rSeq} else front
  {
    var front := h[..|h| - 1];
    forall x | x in CallsIn(front, p) ensures x in CallsIn(h, p) {
      var k :| 0 <= k < |front| && IsMine(front[k], p.kind, p.id) && front[k].rSeq == x;
      assert h[k] == front[k];
    }
  }

  /** The rSeqs of the threads that serve the participant. */
  ghost function CallsOf(ts: seq<Thread>, p: Participant): set<int> {
    set i | 0 <= i < |ts| && ts[i].req == AskedBy(p) :: i + 1
  }

  lemma {:induction false} CallsCount(ts: seq<Thread>, p: Participant)
    ensures |CallsOf(ts, p)| == RequestsOf(Requests(ts), p)
  {
    hide AskedBy;
    if ts == [] {
      assert CallsOf(ts, p) == {};
    } else {
      var n, front := |ts| - 1, ts[..|ts| - 1];
      CallsCount(front, p);
      assert Requests(ts)[..n] == Requests(front) && Requests(ts)[n] == ts[n].req;
      CallsOfSnoc(ts, p);
    }
  }

  lemma CallsOfSnoc(ts: seq<Thread>, p: Participant)
    requires ts != []
    ensures
      var n, front := |ts| - 1, CallsOf(ts[..|ts| - 1], p);
      && n + 1 !in front
      && CallsOf(ts, p) == if ts[n].req == AskedBy(p) then front + {n + 1} else front
  {
    hide AskedBy;
    var front := ts[..|ts| - 1];
    forall x | x in CallsOf(front, p) ensures x in CallsOf(ts, p) {
      assert ts[x - 1] == front[x - 1];
    }
  }

  lemma OneCallOneRecord(ts: seq<Thread>, h: seq<Record>)
    requires forall k: nat :: k < |h| ==> RecordAt(ts, h, k)
    ensures DistinctCalls(h)
  {
    forall j: nat, k: nat | j < k < |h| ensures h[j].rSeq != h[k].rSeq {
      assert RecordAt(ts, h, j) && RecordAt(ts, h, k);
    }
  }

  /** A settled run has a record of every call, made by the thread with that number. */
  lemma SameCalls(t: State, fleet: seq<Participant>, p: Participant)
    requires Shape(t.threads) && Numbering(t.threads, t.sSeq, t.history) && Settled(t.threads)
    requires forall i :: 0 <= i < |t.threads| ==> FromFleet(t.threads[i].req, fleet)
    ensures CallsIn(t.history, p) == CallsOf(t.threads, p)
  {
    var ts, h := t.threads, t.history;
    forall x | x in CallsOf(ts, p) ensures x in CallsIn(h, p) {
      var i: nat := x - 1;
      assert DrawnAt(ts, h, i) && ShapeOf(ts[i], i);
      assert h[ts[i].sSeq - 1] == RecordOf(ts[i]);
      OwnsIsMine(ts[i], p.kind, p.id);
    }
    forall x | x in CallsIn(h, p) ensures x in CallsOf(ts, p) {
      var k: nat :| k < |h| && IsMine(h[k], p.kind, p.id) && h[k].rSeq == x;
      assert RecordAt(ts, h, k);
      OwnsIsMine(ts[x - 1], p.kind, p.id);
      assert FromFleet(ts[x - 1].req, fleet);
    }
  }

  // ---------- putting the participants together ----------

  predicate Claimed(r: Record, fleet: seq<Participant>) {
    exists p :: p in fleet && IsMine(r, p.kind, p.id)
  }

  /** Only the last of the fleet claims a record, or it is claimed exactly if the rest claims it. */
  lemma ClaimedByLast(r: Record, fleet: seq<Participant>)
    requires NoDup(fleet) && fleet != []
    ensures
      var front, p := fleet[..|fleet| - 1], fleet[|fleet| - 1];
      if IsMine(r, p.kind, p.id) then Claimed(r, fleet) && !Claimed(r, front)
      else Claimed(r, fleet) == Claimed(r, front)
  {
    var front, p := fleet[..|fleet| - 1], fleet[|fleet| - 1];
    assert fleet == front + [p] && p !in front;
    if IsMine(r, p.kind, p.id) {
      forall q | q in front ensures !IsMine(r, q.kind, q.id) {
        assert q != p;
      }
    }
  }

  lemma {:induction false} TogetherSnoc(h: seq<Record>, r: Record, fleet: seq<Participant>)
    requires NoDup(fleet)
    ensures Together(h + [r], fleet) == Together(h, fleet) + if Claimed(r, fleet) then multiset{r} else multiset{}
  {
    hide IsMine, Claimed, Mine;
    if fleet == [] {
      assert !Claimed(r, fleet) by { Unclaimed(r); }
    } else {
      var front, p := fleet[..|fleet| - 1], fleet[|fleet| - 1];
      TogetherSnoc(h, r, front);
      MineSnoc(h, r, p.kind, p.id);
      ClaimedByLast(r, fleet);
      var mine := MineOf(h, p);
      assert multiset(MineOf(h + [r], p)) == multiset(mine) + if IsMine(r, p.kind, p.id) then multiset{r} else multiset{};
    }
  }

  lemma Unclaimed(r: Record)
    ensures !Claimed(r, [])
  {
  }

  lemma {:induction false} TogetherOfNone(fleet: seq<Participant>)
    ensures Together([], fleet) == multiset{}
  {
    if fleet != [] {
      TogetherOfNone(fleet[..|fleet| - 1]);
    }
  }

  lemma {:induction false} TogetherIsAll(h: seq<Record>, fleet: seq<Participant>)
    requires NoDup(fleet) && forall k :: 0 <= k < |h| ==> Claimed(h[k], fleet)
    ensures Together(h, fleet) == multiset(h)
  {
    if h == [] {
      TogetherOfNone(fleet);
    } else {
      var front, last := h[..|h| - 1], h[|h| - 1];
      TogetherIsAll(front, fleet);
      TogetherSnoc(front, last, fleet);
      assert h == front + [last];
    }
  }

  lemma OneMore(n: nat, a: nat)
    ensures (n + 1) * a == n * a + a
  {
  }

  lemma BagSize(bag: multiset<Record>, xs: seq<Record>)
    ensures |bag + multiset(xs)| == |bag| + |xs|
  {
  }

  lemma {:induction false} TogetherSize(h: seq<Record>, fleet: seq<Participant>, a: nat)
    requires forall p :: p in fleet ==> |MineOf(h, p)| == a
    ensures |Together(h, fleet)| == |fleet| * a
  {
    if fleet != [] {
      hide Mine;
      var n, front, p := |fleet| - 1, fleet[..|fleet| - 1], fleet[|fleet| - 1];
      TogetherSize(h, front, a);
      assert |Together(h, front)| == n * a;
      BagSize(Together(h, front), MineOf(h, p));
      assert |Together(h, fleet)| == n * a + a;
      OneMore(n, a);
    }
  }

  // ---------- the log of a whole run ----------

  lemma AllClaimed(t: State, fleet: seq<Participant>)
    requires Numbering(t.threads, t.sSeq, t.history)
    requires forall i :: 0 <= i < |t.threads| ==> FromFleet(t.threads[i].req, fleet)
    ensures forall k :: 0 <= k < |t.history| ==> Claimed(t.history[k], fleet)
  {
    forall k: nat | k < |t.history| ensures Claimed(t.history[k], fleet) {
      assert RecordAt(t.threads, t.history, k);
      var i := t.history[k].rSeq - 1;
      assert FromFleet(t.threads[i].req, fleet);
      var p :| p in fleet && t.threads[i].req == AskedBy(p);
      OwnsIsMine(t.threads[i], p.kind, p.id);
    }
  }

  /** Whenever the requests made are those of a fleet and all are logged, the log
      consists of exactly the participants' own records. */
  lemma FleetLog(t: State, fleet: seq<Participant>, a: nat)
    requires Reachable(t) && Settled(t.threads)
    requires NoDup(fleet) && Workload(Requests(t.threads), fleet, a)
    ensures FleetServed(t, fleet, a) && |t.threads| == |fleet| * a
    ensures |ServerLog(t.readLog, t.writeLog)| == |fleet| * a + 7
  {
    hide Reachable, LogBag, NoDup, Numbering;
    forall i | 0 <= i < |t.threads| ensures FromFleet(t.threads[i].req, fleet) {
      assert Requests(t.threads)[i] == t.threads[i].req;
    }
    ReachableNumbers(t);
    forall p | p in fleet ensures |MineOf(t.history, p)| == a {
      PartSize(t, fleet, p);
    }
    AllClaimed(t, fleet);
    TogetherIsAll(t.history, fleet);
    TogetherSize(t.history, fleet, a);
    ReachableSettledLog(t);
    NothingElse(t);
    SettledState(t);
    AllTouching(Requests(t.threads), fleet);
  }

  lemma PartSize(t: State, fleet: seq<Participant>, p: Participant)
    requires Shape(t.threads) && Numbering(t.threads, t.sSeq, t.history) && Settled(t.threads)
    requires forall i :: 0 <= i < |t.threads| ==> FromFleet(t.threads[i].req, fleet)
    ensures |MineOf(t.history, p)| == RequestsOf(Requests(t.threads), p)
  {
    OneCallOneRecord(t.threads, t.history);
    MineCount(t.history, p);
    CallsCount(t.threads, p);
    SameCalls(t, fleet, p);
  }

  lemma {:induction false} AllTouching(reqs: seq<Request>, fleet: seq<Participant>)
    requires forall i :: 0 <= i < |reqs| ==> FromFleet(reqs[i], fleet)
    ensures Touching(reqs) == |reqs| && forall i :: 0 <= i < |reqs| ==> Touches(reqs[i])
  {
    if reqs != [] {
      AllTouching(reqs[..|reqs| - 1], fleet);
      assert FromFleet(reqs[|reqs| - 1], fleet);
    }
  }

  // ---------- the clients and the server of a configuration ----------

  /** The clients `Start` launches: the readers, then the writers. */
  function Fleet(readers: nat, writers: nat): seq<Participant> {
    seq(readers, i requires 0 <= i => Participant(READ, ReaderId(i)))
    + seq(writers, i requires 0 <= i => Participant(WRITE, WriterId(i, writers)))
  }

  /** The number of requests the server is told to expect, in Java int arithmetic. */
  function Expecting(readers: int, writers: int, accesses: int): int {
    Wrap(Wrap(readers + writers) * accesses)
  }

  lemma AcceptedCounts(lines: seq<string>, rmi: bool, r: nat, w: nat)
    requires Acceptable(lines, rmi)
    requires LookupInt(lines, "numberOfReaders") == Some(r) && LookupInt(lines, "numberOfWriters") == Some(w)
    ensures w <= r <= INT_MAX
  {
    hide Lookup, HostsOk;
    IdsDistinct(lines, rmi);
  }

  lemma WriterIdsDiffer(i: nat, j: nat, w: nat)
    requires i < j < w <= INT_MAX
    ensures WriterId(i, w) != WriterId(j, w)
  {
  }

  lemma FleetNoDup(r: nat, w: nat)
    requires w <= r <= INT_MAX
    ensures NoDup(Fleet(r, w))
  {
    hide WriterId, Wrap, Fleet;
    FleetIds(r, w);
    var fleet := Fleet(r, w);
    forall i, j | 0 <= i < j < r + w ensures fleet[i] != fleet[j] {
      if i >= r {
        WriterIdsDiffer(i - r, j - r, w);
        assert fleet[r + (i - r)] != fleet[r + (j - r)];
      } else if j >= r {
        assert fleet[i] == Participant(READ, ReaderId(i));
        assert fleet[r + (j - r)] == Participant(WRITE, WriterId(j - r, w));
      }
    }
  }

  /** A participant of the fleet with the id of an earlier one is a writer with the id of a reader. */
  lemma FleetClash(r: nat, w: nat, i: nat, j: nat)
    requires w <= r <= INT_MAX && i < j < r + w && (w == 0 || w == r)
    ensures |Fleet(r, w)| == r + w && Fleet(r, w)[i].id != Fleet(r, w)[j].id
  {
    FleetIds(r, w);
    hide Fleet;
    var fleet := Fleet(r, w);
    if j < r {
      assert fleet[i].id == ReaderId(i) && fleet[j].id == ReaderId(j);
    } else {
      assert fleet[r + (j - r)].id == WriterId(j - r, w);
      if i >= r {
        assert fleet[r + (i - r)].id == WriterId(i - r, w);
        WriterIdsDiffer(i - r, j - r, w);
      }
    }
  }

  /** In an accepted configuration no two clients are the same, and no two write the
      same log file exactly if there are no writers or as many writers as readers. */
  lemma FleetDistinct(lines: seq<string>, rmi: bool, r: nat, w: nat)
    requires Acceptable(lines, rmi)
    requires LookupInt(lines, "numberOfReaders") == Some(r) && LookupInt(lines, "numberOfWriters") == Some(w)
    ensures NoDup(Fleet(r, w))
    ensures NoDup(LogFiles(Fleet(r, w))) <==> w == 0 || w == r
  {
    hide Acceptable, LookupInt, Fleet, ReaderId, WriterId, LogFileName, PrintInt;
    AcceptedCounts(lines, rmi, r, w);
    FleetNoDup(r, w);
    FleetIds(r, w);
    var fleet, files := Fleet(r, w), LogFiles(Fleet(r, w));
    if w == 0 || w == r {
      forall i, j | 0 <= i < j < r + w ensures files[i] != files[j] {
        FleetClash(r, w, i, j);
        LogFileNames(fleet[i].id, fleet[j].id);
      }
    } else {
      FirstWriter(r, w);
      assert files[w] == files[r];
    }
  }

  /** With more readers than writers the first writer has the id of a reader. */
  lemma FirstWriter(r: nat, w: nat)
    requires 0 < w < r <= INT_MAX
    ensures |Fleet(r, w)| == r + w && Fleet(r, w)[w].id == Fleet(r, w)[r].id
  {
    FleetIds(r, w);
    assert Fleet(r, w)[r + 0].id == WriterId(0, w);
  }

  lemma FleetIds(r: nat, w: nat)
    requires w <= r <= INT_MAX
    ensures |Fleet(r, w)| == r + w
    ensures forall i: nat :: i < r ==> Fleet(r, w)[i] == Participant(READ, ReaderId(i)) == Participant(READ, i + 1)
    ensures forall j: nat :: j < w ==>
              Fleet(r, w)[r + j] == Participant(WRITE, WriterId(j, w)) == Participant(WRITE, Wrap(j + 1 + w))
    ensures forall i :: 0 <= i < r + w ==> Int32(Fleet(r, w)[i].id)
  {
    forall i: nat | i < r + w ensures Int32(Fleet(r, w)[i].id) {
      if i < r {
        assert Fleet(r, w)[i].id == ReaderId(i);
      } else {
        assert Fleet(r, w)[r + (i - r)].id == WriterId(i - r, w);
      }
    }
  }

  /** The files the clients write their logs to. */
  function LogFiles(fleet: seq<Participant>): seq<string> {
    seq(|fleet|, i requires 0 <= i < |fleet| => LogFileName(PrintInt(fleet[i].id)))
  }

  /** The two loops that launch the clients. */
  method CreateClients(c: SystemConfiguration, ghost lines: seq<string>) returns (fleet: seq<Participant>)
    requires LinesOk(lines) && 0 <= c.numberOfReaders <= INT_MAX && c.ReflectsReaders(lines) && c.ReflectsWriters(lines)
    ensures fleet == Fleet(c.numberOfReaders, c.numberOfWriters)
    ensures |fleet| == c.numberOfReaders + c.numberOfWriters
    ensures forall i: nat :: i < c.numberOfReaders ==> fleet[i] == Participant(READ, i + 1)
    ensures forall i: nat :: c.numberOfReaders <= i < |fleet| ==>
              fleet[i] == Participant(WRITE, Wrap(i - c.numberOfReaders + 1 + c.numberOfWriters))
  {
    hide EntryAt, ReaderId, WriterId, Fleet, NoDup;
    var r: nat, w: nat := c.numberOfReaders, c.numberOfWriters;
    ghost var all := Fleet(r, w);
    fleet := [];
    FleetIds(r, w);
    var i := 0;
    while i < r
      invariant 0 <= i <= r && fleet == all[..i]
    {
      assert all[i] == Participant(READ, ReaderId(i));
      fleet := fleet + [Participant(READ, c.readersIDs[i])];
      i := i + 1;
    }
    i := 0;
    while i < w
      invariant 0 <= i <= w && fleet == all[..r + i]
    {
      assert all[r + i] == Participant(WRITE, WriterId(i, w));
      fleet := fleet + [Participant(WRITE, c.writersIDs[i])];
      i := i + 1;
    }
    forall k: nat | r <= k < r + w ensures fleet[k] == Participant(WRITE, Wrap(k - r + 1 + w)) {
      assert all[r + (k - r)] == Participant(WRITE, WriterId(k - r, w)) == Participant(WRITE, Wrap(k - r + 1 + w));
    }
  }

  /** The configuration's numbers, and that the product with which the server is created
      does not wrap. */
  ghost predicate Sized(c: SystemConfiguration, lines: seq<string>, r: nat, w: nat, a: nat)
    reads c
  {
    && Acceptable(lines, c.rmi)
    && LookupInt(lines, "numberOfReaders") == Some(r) && c.numberOfReaders == r
    && LookupInt(lines, "numberOfWriters") == Some(w) && c.numberOfWriters == w
    && c.numberOfAccess == a && r + w <= INT_MAX && (r + w) * a <= INT_MAX
  }

  /** The server's number is an int that differs from the product by a multiple of 2^32. */
  lemma ExpectingExact(readers: int, writers: int, accesses: int)
    ensures Int32(Expecting(readers, writers, accesses))
    ensures exists q :: Expecting(readers, writers, accesses) - (readers + writers) * accesses == q * 0x1_0000_0000
  {
    var sum := readers + writers;
    var k := WrapDiffers(sum);
    var j := WrapDiffers(Wrap(sum) * accesses);
    WrapExact(Wrap(sum) * accesses);
    Distribute(sum, k, accesses, 0x1_0000_0000);
    var q := j + k * accesses;
    OneFactor(j, k * accesses, 0x1_0000_0000);
    assert Expecting(readers, writers, accesses) - sum * accesses == q * 0x1_0000_0000;
  }

  lemma WrapDiffers(x: int) returns (k: int)
    ensures Wrap(x) == x + k * 0x1_0000_0000
  {
    WrapExact(x);
    k := (Wrap(x) - x) / 0x1_0000_0000;
  }

  lemma Distribute(x: int, k: int, a: int, m: int)
    ensures (x + k * m) * a == x * a + k * a * m
  {
  }

  lemma OneFactor(j: int, n: int, m: int)
    ensures j * m + n * m == (j + n) * m
  {
  }

  lemma ExpectedOfFleet(r: nat, w: nat, a: nat)
    requires r + w <= INT_MAX && (r + w) * a <= INT_MAX
    ensures Expecting(r, w, a) == |Fleet(r, w)| * a == (r + w) * a
  {
  }

  /** The accesses of the fleet, one client after the other. */
  function Accesses(fleet: seq<Participant>, a: nat): seq<Request> {
    if fleet == [] then []
    else Accesses(fleet[..|fleet| - 1], a) + seq(a, _ => AskedBy(fleet[|fleet| - 1]))
  }

  lemma {:induction false} AccessesOfOne(reqs: seq<Request>, q: Participant, n: nat, p: Participant)
    ensures RequestsOf(reqs + seq(n, _ => AskedBy(q)), p) == RequestsOf(reqs, p) + if p == q then n else 0
  {
    var all := reqs + seq(n, _ => AskedBy(q));
    if n == 0 {
      assert all == reqs;
    } else {
      AccessesOfOne(reqs, q, n - 1, p);
      assert all[..|all| - 1] == reqs + seq(n - 1, _ => AskedBy(q));
      assert all[|all| - 1] == AskedBy(q);
    }
  }

  lemma {:induction false} AccessesCount(fleet: seq<Participant>, a: nat, p: Participant)
    requires NoDup(fleet)
    ensures RequestsOf(Accesses(fleet, a), p) == if p in fleet then a else 0
  {
    if fleet != [] {
      var front, q := fleet[..|fleet| - 1], fleet[|fleet| - 1];
      AccessesCount(front, a, p);
      AccessesOfOne(Accesses(front, a), q, a, p);
      assert fleet == front + [q] && q !in front;
    }
  }

  lemma {:induction false} AccessesFromFleet(fleet: seq<Participant>, a: nat)
    ensures forall i :: 0 <= i < |Accesses(fleet, a)| ==> FromFleet(Accesses(fleet, a)[i], fleet)
  {
    if fleet != [] {
      var front, q := fleet[..|fleet| - 1], fleet[|fleet| - 1];
      AccessesFromFleet(front, a);
      assert fleet == front + [q];
      forall i | 0 <= i < |Accesses(fleet, a)| ensures FromFleet(Accesses(fleet, a)[i], fleet) {
        if i < |Accesses(front, a)| {
          assert FromFleet(Accesses(front, a)[i], front);
        } else {
          assert q in fleet && Accesses(fleet, a)[i] == AskedBy(q);
        }
      }
    }
  }

  /** Every fleet has such a workload. */
  lemma SomeWorkload(fleet: seq<Participant>, a: nat)
    requires NoDup(fleet)
    ensures Workload(Accesses(fleet, a), fleet, a)
  {
    AccessesFromFleet(fleet, a);
    forall p | p in fleet ensures RequestsOf(Accesses(fleet, a), p) == a {
      AccessesCount(fleet, a, p);
    }
  }

  /** A fleet's workload is one request per client and access. */
  lemma WorkloadSize(reqs: seq<Request>, fleet: seq<Participant>, a: nat)
    requires NoDup(fleet) && Workload(reqs, fleet, a)
    ensures |reqs| == |fleet| * a && Releasing(reqs) == |reqs|
  {
    hide NoDup, Workload, FleetServed, ServerLog, Reachable;
    var t := SomeRun(reqs);
    FleetLog(t, fleet, a);
    WorkloadTouches(reqs, fleet, a);
    AllRelease(reqs);
  }

  /** Every list of requests has a completed run. */
  lemma SomeRun(reqs: seq<Request>) returns (t: State)
    ensures Reachable(t) && Quiet(t) && Requests(t.threads) == reqs && |t.threads| == |reqs|
  {
    hide Reachable, Inv, Leads, Later;
    var s := CallAll(reqs, |reqs|);
    ReachableInv(s);
    t := Drain(s);
    Continued(s, t);
    assert |Requests(t.threads)| == |t.threads|;
  }

  lemma WorkloadTouches(reqs: seq<Request>, fleet: seq<Participant>, a: nat)
    requires Workload(reqs, fleet, a)
    ensures Touching(reqs) == |reqs| && forall i :: 0 <= i < |reqs| ==> Touches(reqs[i])
  {
    AllTouching(reqs, fleet);
  }

  /** The socket server of an accepted configuration: if its connections are those of the
      clients, each of them making its accesses, the published file has one row for each
      of the (R + W) * A records, and these are the clients' own, put together. */
  method ServeBySocket(c: SystemConfiguration, ghost lines: seq<string>, ghost r: nat, ghost w: nat, ghost a: nat,
                       board: SharedServerObject, accepts: seq<Accept>)
    returns (rows: seq<string>)
    requires Sized(c, lines, r, w, a) && board.Valid() && board.Abs() == Init(board.limit)
    requires |accepts| == (r + w) * a <= board.limit
    modifies board, board.log
    ensures board.Valid() && rows == ServerLog(board.log.readRecords, board.log.writeRecords)
    ensures Workload(Accepted(accepts), Fleet(r, w), a) ==>
              FleetServed(board.Abs(), Fleet(r, w), a) && |rows| == (r + w) * a + 7
  {
    hide Reachable, Workload, FleetServed, CompleteLog, NoDup, Acceptable, LookupInt, Accepted, ServerLog;
    ExpectedOfFleet(r, w, a);
    var worker := new ServerWorker(board, Expecting(c.numberOfReaders, c.numberOfWriters, c.numberOfAccess));
    rows := worker.Run(accepts);
    assert accepts[..|accepts|] == accepts;
    if Workload(Accepted(accepts), Fleet(r, w), a) {
      FleetDistinct(lines, c.rmi, r, w);
      FleetLog(board.Abs(), Fleet(r, w), a);
    }
  }

  /** The same for the RMI server: if its calls are those of the clients, it gets its
      permit, and not before all of them are recorded. */
  method ServeByRmi(c: SystemConfiguration, ghost lines: seq<string>, ghost r: nat, ghost w: nat, ghost a: nat,
                    board: SharedServerObject, calls: seq<RemoteCall>)
    returns (published: bool, rows: seq<string>)
    requires Sized(c, lines, r, w, a) && board.Valid() && board.Abs() == Init(|calls|)
    modifies board, board.log
    ensures board.Valid()
    ensures published ==> rows == ServerLog(board.log.readRecords, board.log.writeRecords)
    ensures Workload(Served(calls), Fleet(r, w), a) ==>
              published && FleetServed(board.Abs(), Fleet(r, w), a) && |rows| == (r + w) * a + 7
  {
    hide Reachable, Workload, FleetServed, CompleteLog, NoDup, Acceptable, LookupInt, ServerLog, EndingWell, Reaches, Served;
    ExpectedOfFleet(r, w, a);
    var worker := new RMIServerWorker(Expecting(c.numberOfReaders, c.numberOfWriters, c.numberOfAccess));
    published, rows := worker.Run(board, calls);
    if Workload(Served(calls), Fleet(r, w), a) {
      FleetDistinct(lines, c.rmi, r, w);
      WorkloadSize(Served(calls), Fleet(r, w), a);
      ServedCounts(calls);
      WorkloadTouches(Served(calls), Fleet(r, w), a);
      AllMade(board.Abs(), Served(calls));
      FleetLog(board.Abs(), Fleet(r, w), a);
    }
  }

  /** If every request of the list reaches the object, a complete log means that all of
      them have been made. */
  lemma AllMade(t: State, reqs: seq<Request>)
    requires CompleteLog(t, reqs) && forall i :: 0 <= i < |reqs| ==> Touches(reqs[i])
    ensures Requests(t.threads) == reqs && Settled(t.threads)
  {
    CompleteIsSettled(t, reqs);
    assert |Requests(t.threads)| == |t.threads|;
    if reqs != [] {
      assert LoggedOnce(t, |reqs| - 1);
    }
  }
}
