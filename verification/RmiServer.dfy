/** The RMI server: each call that ends without an exception releases a semaphore that
    starts at 1 - N, and the main thread publishes the log when it can acquire it. */
module RmiServer {
  import opened Wrappers
  import opened Records
  import opened Protocol
  import opened Invariants
  import opened Theorems
  import opened Progress
  import opened Codec
  import opened CodecLaws
  import opened Logs
  import opened SharedObject
  import opened SocketServer

  /** The tasks that have released the semaphore: those that ended without an exception. */
  ghost function ReleasedSet(ts: seq<Thread>): set<nat> {
    set i: nat | i < |ts| && ts[i].pc.Finished? && !ts[i].req.Failed?
  }

  /** How many of the requests release the semaphore when they end. */
  function Releasing(reqs: seq<Request>): (n: nat)
    ensures n <= |reqs|
  {
    if reqs == [] then 0
    else Releasing(reqs[..|reqs| - 1]) + if reqs[|reqs| - 1].Failed? then 0 else 1
  }

  lemma ReleasedSnoc(ts: seq<Thread>)
    requires ts != []
    ensures
      var n, t := |ts| - 1, ts[|ts| - 1];
      && |ReleasedSet(ts)| == |ReleasedSet(ts[..n])| + (if t.pc.Finished? && !t.req.Failed? then 1 else 0)
      && Releasing(Requests(ts)) == Releasing(Requests(ts[..n])) + if t.req.Failed? then 0 else 1
  {
    var n, front, t := |ts| - 1, ts[..|ts| - 1], ts[|ts| - 1];
    assert Requests(ts)[..n] == Requests(front);
    assert ReleasedSet(ts) ==
      if t.pc.Finished? && !t.req.Failed? then ReleasedSet(front) + {n as nat} else ReleasedSet(front);
  }

  lemma {:induction false} ReleasedBound(ts: seq<Thread>)
    ensures |ReleasedSet(ts)| <= Releasing(Requests(ts)) <= |ts|
    ensures |ReleasedSet(ts)| == Releasing(Requests(ts)) ==>
              forall i :: 0 <= i < |ts| && !ts[i].req.Failed? ==> ts[i].pc.Finished?
  {
    if ts == [] {
      assert ReleasedSet(ts) == {};
    } else {
      ReleasedSnoc(ts);
      ReleasedBound(ts[..|ts| - 1]);
    }
  }

  lemma {:induction false} ReleasedByAll(ts: seq<Thread>)
    requires forall i :: 0 <= i < |ts| ==> ts[i].pc.Finished?
    ensures |ReleasedSet(ts)| == Releasing(Requests(ts))
  {
    if ts == [] {
      assert ReleasedSet(ts) == {};
    } else {
      ReleasedSnoc(ts);
      ReleasedByAll(ts[..|ts| - 1]);
    }
  }

  lemma ReleasedUpdate(ts: seq<Thread>, i: nat, t: Thread)
    requires i < |ts| && !ts[i].pc.Finished? && t.req == ts[i].req
    ensures |ReleasedSet(ts[i := t])| ==
            |ReleasedSet(ts)| + if t.pc.Finished? && !t.req.Failed? then 1 else 0
  {
    assert ReleasedSet(ts[i := t]) ==
      if t.pc.Finished? && !t.req.Failed? then ReleasedSet(ts) + {i} else ReleasedSet(ts);
  }

  lemma ReleasedAppend(ts: seq<Thread>, t: Thread)
    requires !t.pc.Finished?
    ensures ReleasedSet(ts + [t]) == ReleasedSet(ts)
  {
  }

  function Served(calls: seq<RemoteCall>): seq<Request> {
    seq(|calls|, i requires 0 <= i < |calls| => ServeCall(calls[i]))
  }

  /** The calls that end without an exception. */
  ghost function EndingWell(calls: seq<RemoteCall>): set<nat> {
    set i: nat | i < |calls| && !CallThrows(calls[i])
  }

  /** The call reads or writes. */
  predicate Reaches(call: RemoteCall) {
    call.id.Some? && (call.requestType == Some("R") || (call.requestType == Some("W") && call.value.Some?))
  }

  /** In terms of the calls' own fields: a call releases the semaphore exactly if it does
      not throw, also if its type is unknown, and it reaches the object exactly if it reads
      or writes. */
  lemma {:induction false} ServedCounts(calls: seq<RemoteCall>)
    ensures |Served(calls)| == |calls| && Releasing(Served(calls)) == |EndingWell(calls)|
    ensures forall i :: 0 <= i < |calls| ==> (Touches(Served(calls)[i]) <==> Reaches(calls[i]))
    ensures Touching(Served(calls)) == 0 <==> forall i :: 0 <= i < |calls| ==> !Reaches(calls[i])
  {
    hide CallThrows;
    forall i | 0 <= i < |calls| ensures Touches(Served(calls)[i]) <==> Reaches(calls[i]) {
      ServedAs(calls[i]);
    }
    if calls == [] {
      assert EndingWell(calls) == {};
    } else {
      var n, front := |calls| - 1, calls[..|calls| - 1];
      ServedCounts(front);
      ServedAs(calls[n]);
      assert Served(calls)[..n] == Served(front) && Served(calls)[n] == ServeCall(calls[n]);
      EndingWellSnoc(calls);
    }
  }

  lemma ServedAs(call: RemoteCall)
    ensures Touches(ServeCall(call)) <==> Reaches(call)
    ensures ServeCall(call).Failed? <==> CallThrows(call)
  {
    ServeCallExact(call);
  }

  lemma EndingWellSnoc(calls: seq<RemoteCall>)
    requires calls != []
    ensures |EndingWell(calls)| == |EndingWell(calls[..|calls| - 1])| + if CallThrows(calls[|calls| - 1]) then 0 else 1
  {
    hide CallThrows;
    var n, front := |calls| - 1, EndingWell(calls[..|calls| - 1]);
    assert EndingWell(calls) == if CallThrows(calls[n]) then front else front + {n as nat};
  }

  /** A prefix releases at most as often as the whole, and as often only if all others fail. */
  lemma {:induction false} ReleasingPrefix(reqs: seq<Request>, k: nat)
    requires k <= |reqs|
    ensures Releasing(reqs[..k]) <= Releasing(reqs)
    ensures Releasing(reqs[..k]) == Releasing(reqs) ==> forall i :: k <= i < |reqs| ==> reqs[i].Failed?
  {
    var n := |reqs|;
    if k < n {
      ReleasingPrefix(reqs[..n - 1], k);
      assert reqs[..n - 1][..k] == reqs[..k];
    } else {
      assert reqs[..k] == reqs;
    }
  }

  class Semaphore {
    var permits: int

    constructor (permits: int)
      ensures this.permits == permits
    {
      this.permits := permits;
    }

    method Release()
      modifies this
      ensures permits == old(permits) + 1
    {
      permits := permits + 1;
    }

    method Acquire()
      requires permits > 0
      modifies this
      ensures permits == old(permits) - 1
    {
      permits := permits - 1;
    }
  }

  class ClientController {
    const board: SharedServerObject
    const counter: Semaphore
    const required: int   // the server's requestNumber
    var rSeq: int
    ghost var acquired: nat   // permits taken by the main thread

    ghost predicate Valid()
      reads this, board, board.log, counter
    {
      && board.Valid()
      && rSeq == |board.threads| + 1
      && counter.permits + acquired == 1 - required + |ReleasedSet(board.threads)|
    }

    constructor (board: SharedServerObject, counter: Semaphore, required: int)
      requires board.Valid() && board.threads == [] && counter.permits == -required + 1
      ensures Valid() && acquired == 0
      ensures this.board == board && this.counter == counter && this.required == required
    {
      this.board := board;
      this.counter := counter;
      this.required := required;
      rSeq := 1;
      acquired := 0;
      new;
      assert ReleasedSet(board.threads) == {};
    }

    /** `executeTask` up to the dispatch: the call draws its `rSeq`. */
    method ExecuteTask(call: RemoteCall) returns (self: nat)
      requires Valid() && |board.threads| < board.limit
      modifies this, board
      ensures Valid() && self == |old(board.threads)|
      ensures acquired == old(acquired) && counter.permits == old(counter.permits)
      ensures board.Abs() == Do(old(board.Abs()), Event.Call(ServeCall(call)))
      ensures Requests(board.threads) == Requests(old(board.threads)) + [ServeCall(call)]
      ensures self < |board.threads| && (board.threads[self].req.Failed? <==> CallThrows(call))
      ensures forall id :: board.threads[self].req == Read(id) <==> CallReads(call, id)
      ensures forall id, value :: board.threads[self].req == Write(id, value) <==> CallWrites(call, id, value)
      ensures 0 <= Remaining(board.Abs()) < Remaining(old(board.Abs()))
    {
      ReachableDo(board.Abs(), Event.Call(ServeCall(call)));
      ServeCallExact(call);
      ghost var ts := board.threads;
      self := board.Begin(ServeCall(call), rSeq);
      rSeq := rSeq + 1;
      ReleasedAppend(ts, board.threads[self]);
    }

    /** The rest of `executeTask`, one line at a time; the last line of a task that has
        not thrown is `counter.release()`. */
    method Advance(i: nat)
      requires Valid() && CanStep(board.Abs(), i)
      modifies board, board.log, counter
      ensures Valid() && board.Abs() == Step(old(board.Abs()), i)
      ensures counter.permits >= old(counter.permits)
      ensures Requests(board.threads) == Requests(old(board.threads))
      ensures 0 <= Remaining(board.Abs()) < Remaining(old(board.Abs()))
    {
      ghost var u := board.Abs();
      ReachableDo(u, Line(i));
      DoKeepsThreads(u, Line(i));
      board.RunLine(i);
      if board.threads[i].pc.Finished? && !board.threads[i].req.Failed? {
        counter.Release();
      }
      LineThreads(u, i);
      ReleasedUpdate(u.threads, i, board.threads[i]);
    }
  }

  lemma LineThreads(u: State, i: nat)
    requires CanStep(u, i)
    ensures Step(u, i).threads == u.threads[i := Step(u, i).threads[i]]
    ensures Step(u, i).threads[i].req == u.threads[i].req
  {
  }

  class RMIServerWorker {
    const requestNumber: int

    constructor (requestNumber: int)
      ensures this.requestNumber == requestNumber
    {
      this.requestNumber := requestNumber;
    }

    /** For every sequence of calls and every interleaving, also between the permit and
        the writing of the file: the log is published exactly when at least N of the calls
        end without an exception, never before N tasks have released; and if no more than
        N of the calls release, or none reaches the object, it is published complete. */
    method Run(board: SharedServerObject, calls: seq<RemoteCall>) returns (published: bool, lines: seq<string>)
      requires board.Valid() && board.Abs() == Init(|calls|)
      modifies board, board.log
      ensures board.Valid() && board.limit == |calls| && Requests(board.threads) <= Served(calls)
      ensures published ==> |ReleasedSet(board.threads)| >= requestNumber
      ensures published <==> |EndingWell(calls)| >= requestNumber
      ensures published && (|EndingWell(calls)| <= requestNumber || forall i :: 0 <= i < |calls| ==> !Reaches(calls[i])) ==>
                CompleteLog(board.Abs(), Served(calls))
      ensures !published ==> Quiet(board.Abs()) && Requests(board.threads) == Served(calls)
      ensures lines == if published then ServerLog(board.log.readRecords, board.log.writeRecords) else []
    {
      hide Reachable, Quiet, CompleteLog, Remaining, EndingWell, Reaches, Releasing, Touching, ReleasedSet, ServerLog;
      ServedCounts(calls);
      var sem := new Semaphore(-requestNumber + 1);
      var controller := new ClientController(board, sem, requestNumber);
      var k := AwaitPermit(controller, calls);
      published := sem.permits > 0;
      lines := [];
      if published {
        sem.Acquire();
        controller.acquired := 1;
        k := Linger(controller, calls, k);
        lines := board.log.WriteServerLog();
        ReleasedBound(board.threads);
        ReleasingPrefix(Served(calls), k);
        if Releasing(Served(calls)) <= requestNumber || Touching(Served(calls)) == 0 {
          PermitIsComplete(board.Abs(), Served(calls), requestNumber);
        }
      } else {
        ReleasedByAll(board.threads);
        assert Served(calls)[..k] == Served(calls);
      }
    }

    /** The main thread waits for a permit, and may be late to take it: calls arrive and
        their tasks move, for ever if every call has ended without a permit. */
    method AwaitPermit(controller: ClientController, calls: seq<RemoteCall>) returns (k: nat)
      requires controller.Valid() && controller.acquired == 0
      requires controller.board.threads == [] && controller.board.limit == |calls|
      modifies controller, controller.board, controller.board.log, controller.counter
      ensures controller.Valid() && controller.acquired == 0
      ensures k <= |calls| && Requests(controller.board.threads) == Served(calls)[..k]
      ensures controller.counter.permits <= 0 ==> k == |calls| && Quiet(controller.board.Abs())
    {
      k := 0;
      var late: bool := *;
      while (controller.counter.permits <= 0 || late) && (k < |calls| || !Quiet(controller.board.Visible()))
        invariant controller.Valid() && controller.acquired == 0
        invariant 0 <= k <= |calls| && Requests(controller.board.threads) == Served(calls)[..k]
        decreases Remaining(controller.board.Abs())
      {
        k := MoveOn(controller, calls, k);
        late := *;
      }
    }

    /** Any number of further events. */
    method Linger(controller: ClientController, calls: seq<RemoteCall>, n: nat) returns (k: nat)
      requires controller.Valid() && controller.board.limit == |calls|
      requires n <= |calls| && Requests(controller.board.threads) == Served(calls)[..n]
      modifies controller, controller.board, controller.board.log, controller.counter
      ensures controller.Valid() && controller.acquired == old(controller.acquired)
      ensures controller.counter.permits >= old(controller.counter.permits)
      ensures k <= |calls| && Requests(controller.board.threads) == Served(calls)[..k]
    {
      k := n;
      var more: bool := *;
      while more && (k < |calls| || !Quiet(controller.board.Visible()))
        invariant controller.Valid() && controller.acquired == old(controller.acquired)
        invariant controller.counter.permits >= old(controller.counter.permits)
        invariant 0 <= k <= |calls| && Requests(controller.board.threads) == Served(calls)[..k]
        decreases Remaining(controller.board.Abs())
      {
        k := MoveOn(controller, calls, k);
        more := *;
      }
    }

    /** One event: the next call arrives or some task executes its next line. */
    method MoveOn(controller: ClientController, calls: seq<RemoteCall>, n: nat) returns (k: nat)
      requires controller.Valid() && controller.board.limit == |calls|
      requires n <= |calls| && Requests(controller.board.threads) == Served(calls)[..n]
      requires n < |calls| || !Quiet(controller.board.Abs())
      modifies controller, controller.board, controller.board.log, controller.counter
      ensures controller.Valid() && controller.acquired == old(controller.acquired)
      ensures controller.counter.permits >= old(controller.counter.permits)
      ensures k <= |calls| && Requests(controller.board.threads) == Served(calls)[..k]
      ensures 0 <= Remaining(controller.board.Abs()) < Remaining(old(controller.board.Abs()))
    {
      k := n;
      assert |Requests(controller.board.threads)| == |controller.board.threads|;
      var callNow: bool := *;
      if k < |calls| && (callNow || Quiet(controller.board.Visible())) {
        var _ := controller.ExecuteTask(calls[k]);
        k := k + 1;
        assert Served(calls)[..k] == Served(calls)[..n] + [ServeCall(calls[n])];
      } else {
        ghost var j := ReachableMoves(controller.board.Abs());
        SameLines(controller.board.Visible(), controller.board.Abs());
        assert CanStep(controller.board.Visible(), j);
        var i: nat :| CanStep(controller.board.Visible(), i);
        controller.Advance(i);
      }
    }
  }

  // ---------- what the permit says about the log ----------

  /** Some run of the first of the calls `reqs`, or of all of them, ends in `t`, where
      the main thread of a server that expects `required` calls has or can get its permit. */
  ghost predicate AtPermit(required: int, reqs: seq<Request>, t: State) {
    && Reachable(t) && t.limit == |reqs| && Requests(t.threads) <= reqs
    && |ReleasedSet(t.threads)| >= required
  }

  /** The calls are no more than expected, not counting those that fail, or none of them
      reaches the object. */
  predicate Expected(required: int, reqs: seq<Request>) {
    Releasing(reqs) <= required || Touching(reqs) == 0
  }

  lemma {:induction false} NoneTouches(reqs: seq<Request>)
    requires Touching(reqs) == 0
    ensures forall i :: 0 <= i < |reqs| ==> !Touches(reqs[i])
  {
    if reqs != [] {
      NoneTouches(reqs[..|reqs| - 1]);
    }
  }

  lemma PermitIsComplete(t: State, reqs: seq<Request>, required: int)
    requires AtPermit(required, reqs, t) && Expected(required, reqs)
    ensures CompleteLog(t, reqs)
  {
    hide Reachable, CompleteLog, Quiet;
    var ts, n := t.threads, |t.threads|;
    assert |Requests(ts)| == n && Requests(ts) == reqs[..n];
    if Touching(reqs) == 0 {
      NoneTouches(reqs);
    } else {
      ReleasedBound(ts);
      ReleasingPrefix(reqs, n);
    }
    forall i | 0 <= i < |reqs| && Touches(reqs[i]) ensures i < n && HasLogged(ts[i]) {
      if i < n { assert Requests(ts)[i] == ts[i].req; }
    }
    LoggedIsComplete(t, reqs);
  }

  /** All calls are made and all but `j` end before `j` does anything. */
  lemma Overtaken(reqs: seq<Request>, j: nat) returns (t: State)
    requires j < |reqs| && Touches(reqs[j])
    ensures Reachable(t) && t.limit == |reqs| && Requests(t.threads) == reqs && |t.threads| == |reqs|
    ensures t.threads[j].pc.Ready? && |ReleasedSet(t.threads)| == Releasing(reqs) - 1
  {
    hide Reachable, Inv, Leads;
    var s := CallAll(reqs, |reqs|);
    assert |s.threads| == |Requests(s.threads)| == |reqs|;
    var goals := seq(|reqs|, i => if i == j then Stay else End);
    ReachableInv(s);
    t := RunTo(s, goals);
    Continued(s, t);
    assert Reached(goals[j], s.threads[j], t.threads[j]);
    assert Requests(t.threads) == reqs;
    var us := t.threads[j := t.threads[j].(pc := Finished)];
    ReleasedUpdate(t.threads, j, us[j]);
    assert Requests(us) == reqs;
    forall i | 0 <= i < |us| ensures us[i].pc.Finished? {
      assert Reached(goals[i], s.threads[i], t.threads[i]);
    }
    ReleasedByAll(us);
  }

  /** With more calls than expected the permit can be there while every call has been
      made and one that reaches the object is not in the log. */
  lemma EarlyPublication(required: int, reqs: seq<Request>) returns (t: State, j: nat)
    requires !Expected(required, reqs)
    ensures AtPermit(required, reqs, t) && Requests(t.threads) == reqs
    ensures j < |t.threads| && Touches(t.threads[j].req) && t.threads[j].pc.Ready?
  {
    j := SomeTouches(reqs);
    t := Overtaken(reqs, j);
    assert Requests(t.threads)[j] == t.threads[j].req;
  }

  lemma {:induction false} SomeTouches(reqs: seq<Request>) returns (j: nat)
    requires Touching(reqs) > 0
    ensures j < |reqs| && Touches(reqs[j])
  {
    j := |reqs| - 1;
    if !Touches(reqs[j]) {
      j := SomeTouches(reqs[..j]);
    }
  }

  /** For every list of calls: under the permit the log has a record of every call made
      so far that reaches the object, and even of every such call of the list, exactly if
      no more calls than expected end without an exception or none reaches the object. */
  lemma GateExact(required: int, reqs: seq<Request>)
    ensures (forall t :: AtPermit(required, reqs, t) ==> Settled(t.threads)) <==> Expected(required, reqs)
    ensures (forall t :: AtPermit(required, reqs, t) ==> CompleteLog(t, reqs)) <==> Expected(required, reqs)
  {
    if Expected(required, reqs) {
      forall t | AtPermit(required, reqs, t) ensures CompleteLog(t, reqs) && Settled(t.threads) {
        PermitIsComplete(t, reqs, required);
        CompleteIsSettled(t, reqs);
      }
    } else {
      var t, j := EarlyPublication(required, reqs);
      assert !HasLogged(t.threads[j]);
      assert !Settled(t.threads);
      assert CompleteLog(t, reqs) ==> LoggedOnce(t, j);
    }
  }

  lemma CompleteIsSettled(t: State, reqs: seq<Request>)
    requires CompleteLog(t, reqs)
    ensures Settled(t.threads)
  {
    forall i | 0 <= i < |t.threads| && Touches(t.threads[i].req) ensures HasLogged(t.threads[i]) {
      assert Requests(t.threads)[i] == reqs[i];
      assert LoggedOnce(t, i);
    }
  }

  /** If all calls are valid, that is exactly if there are at most N of them, or none. */
  lemma GateForValidCalls(required: int, reqs: seq<Request>)
    requires forall i :: 0 <= i < |reqs| ==> Touches(reqs[i])
    ensures (forall t :: AtPermit(required, reqs, t) ==> CompleteLog(t, reqs)) <==> |reqs| <= required || reqs == []
  {
    GateExact(required, reqs);
    AllRelease(reqs);
    if reqs != [] { assert Touching(reqs) > 0; }
  }

  lemma {:induction false} AllRelease(reqs: seq<Request>)
    requires forall i :: 0 <= i < |reqs| ==> Touches(reqs[i])
    ensures Releasing(reqs) == |reqs|
  {
    if reqs != [] {
      AllRelease(reqs[..|reqs| - 1]);
    }
  }
}
