/** The socket server: a counted accept loop, a join loop, then the log. */
module SocketServer {
  import opened Wrappers
  import opened Records
  import opened Protocol
  import opened Invariants
  import opened Theorems
  import opened Progress
  import opened Text
  import opened Codec
  import opened Logs
  import opened SharedObject

  /** What one call of `accept` brings: an exception, or a connection and the first
      line its client sends (None if it sends nothing). */
  datatype Accept = ConnectionError | Connection(line: Option<string>)

  /** The requests of the connections that were accepted, in that order. */
  function Accepted(accepts: seq<Accept>): seq<Request> {
    if accepts == [] then []
    else
      match accepts[|accepts| - 1]
      case ConnectionError => Accepted(accepts[..|accepts| - 1])
      case Connection(line) => Accepted(accepts[..|accepts| - 1]) + [ServeLine(line)]
  }

  function Errors(accepts: seq<Accept>): nat {
    if accepts == [] then 0
    else Errors(accepts[..|accepts| - 1]) + if accepts[|accepts| - 1].ConnectionError? then 1 else 0
  }

  /** The calls of `accept` that bring a connection. */
  ghost function Connections(accepts: seq<Accept>): set<nat> {
    set i: nat | i < |accepts| && accepts[i].Connection?
  }

  /** One request for each connection, and the rest are errors. */
  lemma {:induction false} AcceptedCounts(accepts: seq<Accept>)
    ensures |Accepted(accepts)| == |Connections(accepts)|
    ensures Errors(accepts) == |accepts| - |Connections(accepts)|
  {
    if accepts == [] {
      assert Connections(accepts) == {};
    } else {
      var n, front := |accepts| - 1, accepts[..|accepts| - 1];
      AcceptedCounts(front);
      assert Connections(accepts) ==
        if accepts[n].Connection? then Connections(front) + {n as nat} else Connections(front);
    }
  }

  /** The request of a connection comes after those of the connections before it. */
  lemma {:induction false} AcceptedAt(accepts: seq<Accept>, k: nat)
    requires k < |accepts| && accepts[k].Connection?
    ensures |Connections(accepts[..k])| < |Accepted(accepts)|
    ensures Accepted(accepts)[|Connections(accepts[..k])|] == ServeLine(accepts[k].line)
  {
    var front := accepts[..|accepts| - 1];
    if k < |accepts| - 1 {
      AcceptedAt(front, k);
      assert front[..k] == accepts[..k];
    } else {
      AcceptedCounts(front);
    }
  }

  lemma AcceptedSnoc(accepts: seq<Accept>, k: nat)
    requires k < |accepts|
    ensures Errors(accepts[..k + 1]) == Errors(accepts[..k]) + if accepts[k].ConnectionError? then 1 else 0
    ensures Accepted(accepts[..k + 1]) ==
            match accepts[k]
            case ConnectionError => Accepted(accepts[..k])
            case Connection(line) => Accepted(accepts[..k]) + [ServeLine(line)]
  {
    assert accepts[..k + 1][..k] == accepts[..k];
  }

  lemma NoneAccepted(accepts: seq<Accept>)
    ensures Accepted(accepts[..0]) == [] && Errors(accepts[..0]) == 0
  {
    assert accepts[..0] == [];
  }

  /** Without new calls the requests stay the same. */
  lemma SameRequests(env: Env, s: State, t: State)
    requires Interfered(env, s, t) && env.room.None?
    ensures Requests(t.threads) == Requests(s.threads)
  {
  }

  ghost predicate LoggedOnce(t: State, i: int) {
    0 <= i < |t.threads| && HasLogged(t.threads[i]) && LogBag(t)[RecordOf(t.threads[i])] == 1
  }

  /** The log is complete for the requests `reqs`: those made so far are the first of
      them, each of the list that reaches the object is logged, once, and nothing else is. */
  ghost predicate CompleteLog(t: State, reqs: seq<Request>) {
    && Reachable(t) && Requests(t.threads) <= reqs
    && (forall i :: 0 <= i < |reqs| && Touches(reqs[i]) ==> LoggedOnce(t, i))
    && LogBag(t) == multiset(t.history)
    && |t.readLog| + |t.writeLog| == Touching(reqs)
    && t.sSeq == Touching(reqs) + 1
  }

  lemma {:induction false} TouchingPrefix(reqs: seq<Request>, n: nat)
    requires n <= |reqs| && forall i :: n <= i < |reqs| ==> !Touches(reqs[i])
    ensures Touching(reqs) == Touching(reqs[..n])
  {
    if n < |reqs| {
      var front := reqs[..|reqs| - 1];
      TouchingPrefix(front, n);
      assert front[..n] == reqs[..n];
    } else {
      assert reqs[..n] == reqs;
    }
  }

  /** When every request of the list that reaches the object is logged, nothing is
      missing from the log and nothing else is in it. */
  lemma LoggedIsComplete(t: State, reqs: seq<Request>)
    requires Reachable(t) && Requests(t.threads) <= reqs
    requires forall i :: 0 <= i < |reqs| && Touches(reqs[i]) ==> i < |t.threads| && HasLogged(t.threads[i])
    ensures CompleteLog(t, reqs)
  {
    hide Reachable, HasLogged, LogBag;
    var n := |t.threads|;
    assert |Requests(t.threads)| == n && Requests(t.threads) == reqs[..n];
    forall i | 0 <= i < n && Touches(t.threads[i].req) ensures HasLogged(t.threads[i]) {
      assert Requests(t.threads)[i] == reqs[i];
    }
    SettledState(t);
    ReachableSettledLog(t);
    TouchingPrefix(reqs, n);
    forall i | 0 <= i < |reqs| && Touches(reqs[i]) ensures LoggedOnce(t, i) {
      assert Requests(t.threads)[i] == reqs[i];
      RecordIsLogged(t, i);
    }
  }

  lemma QuietIsComplete(t: State)
    requires Reachable(t) && Quiet(t)
    ensures CompleteLog(t, Requests(t.threads))
  {
    LoggedIsComplete(t, Requests(t.threads));
  }

  lemma ReachableSettledLog(t: State)
    requires Reachable(t) && Settled(t.threads)
    ensures LogBag(t) == multiset(t.history)
  {
    ReachableInv(t);
    SettledLog(t);
  }

  lemma NumbersHandedOut(t: State)
    requires Reachable(t)
    ensures forall i :: 0 <= i < |t.threads| ==> t.threads[i].rSeq == i + 1
  {
    ReachableNumbers(t);
    forall i: nat | i < |t.threads| ensures t.threads[i].rSeq == i + 1 {
      assert ShapeOf(t.threads[i], i);
    }
  }

  class ServerWorker {
    const board: SharedServerObject
    var requestNumber: int
    var rSeq: int

    constructor (board: SharedServerObject, requestNumber: int)
      ensures this.board == board && this.requestNumber == requestNumber && rSeq == 1
    {
      this.board := board;
      this.requestNumber := requestNumber;
      this.rSeq := 1;
    }

    /** For every pattern of accept errors and every interleaving: started requests
        and errors add up to N, the numbers 1..m are handed out in order of acceptance,
        the loops end, and the published log is complete. */
    method Run(accepts: seq<Accept>) returns (lines: seq<string>)
      requires board.Valid() && board.Abs() == Init(board.limit) && rSeq == 1
      requires requestNumber <= |accepts| && requestNumber <= board.limit
      modifies this, board, board.log
      ensures board.Valid() && Quiet(board.Abs()) && CompleteLog(board.Abs(), Requests(board.threads))
      ensures
        var n := if old(requestNumber) > 0 then old(requestNumber) else 0;
        && Requests(board.threads) == Accepted(accepts[..n])
        && |board.threads| + Errors(accepts[..n]) == n
        && rSeq == |board.threads| + 1
      ensures forall i :: 0 <= i < |board.threads| ==> board.threads[i].rSeq == i + 1
      ensures lines == ServerLog(board.log.readRecords, board.log.writeRecords)
    {
      var threads := AcceptAll(accepts);
      JoinAll(threads);
      QuietIsComplete(board.Abs());
      NumbersHandedOut(board.Abs());
      lines := board.log.WriteServerLog();
    }

    /** The accept loop. */
    method AcceptAll(accepts: seq<Accept>) returns (threads: seq<nat>)
      requires board.Valid() && board.Abs() == Init(board.limit) && rSeq == 1
      requires requestNumber <= |accepts| && requestNumber <= board.limit
      modifies this, board, board.log
      ensures board.Valid()
      ensures
        var n := if old(requestNumber) > 0 then old(requestNumber) else 0;
        && Requests(board.threads) == Accepted(accepts[..n])
        && |board.threads| + Errors(accepts[..n]) == n
      ensures rSeq == |board.threads| + 1
      ensures |threads| == |board.threads| && forall i :: 0 <= i < |threads| ==> threads[i] == i
    {
      hide Reachable, ServeLine, Errors, Accepted;
      threads := [];
      var total := requestNumber;
      ghost var n := if total > 0 then total else 0;
      ghost var done := 0;
      NoneAccepted(accepts);
      while requestNumber > 0
        invariant board.Valid() && 0 <= done <= n && requestNumber == total - done
        invariant Requests(board.threads) == Accepted(accepts[..done])
        invariant |board.threads| + Errors(accepts[..done]) == done
        invariant rSeq == |board.threads| + 1
        invariant |threads| == |board.threads| && forall i :: 0 <= i < |threads| ==> threads[i] == i
      {
        LinesOnly();
        AcceptedSnoc(accepts, done);
        var accept := accepts[total - requestNumber];
        requestNumber := requestNumber - 1;
        done := done + 1;
        match accept
        case Connection(line) =>
          var thread := StartWorker(line);
          threads := threads + [thread];
        case ConnectionError =>
      }
    }

    /** A worker thread starts with the next `rSeq`. */
    method StartWorker(line: Option<string>) returns (thread: nat)
      requires board.Valid() && rSeq == |board.threads| + 1 && |board.threads| < board.limit
      modifies this, board
      ensures board.Valid() && thread == |old(board.threads)| && |board.threads| == thread + 1
      ensures rSeq == |board.threads| + 1 && requestNumber == old(requestNumber)
      ensures Requests(board.threads) == Requests(old(board.threads)) + [ServeLine(line)]
    {
      thread := board.Begin(ServeLine(line), rSeq);
      rSeq := rSeq + 1;
    }

    /** While the main thread waits in accept, the workers move. */
    method LinesOnly()
      requires board.Valid()
      modifies board, board.log
      ensures board.Valid() && |board.threads| == |old(board.threads)|
      ensures Requests(board.threads) == Requests(old(board.threads))
    {
      var env := Env(None, Nobody, None);
      board.Interfere(env);
      SameRequests(env, old(board.Abs()), board.Abs());
      assert |board.threads| == |Requests(board.threads)|;
    }

    /** The join loop. */
    method JoinAll(threads: seq<nat>)
      requires board.Valid()
      requires |threads| == |board.threads| && forall i :: 0 <= i < |threads| ==> threads[i] == i
      modifies board, board.log
      ensures board.Valid() && Quiet(board.Abs())
      ensures |board.threads| == |old(board.threads)|
      ensures Requests(board.threads) == Requests(old(board.threads))
    {
      var i := 0;
      while i < |threads|
        invariant 0 <= i <= |threads| == |board.threads| && board.Valid()
        invariant Requests(board.threads) == Requests(old(board.threads))
        invariant forall j :: 0 <= j < i ==> board.threads[j].pc.Finished?
      {
        Join(threads[i]);
        i := i + 1;
      }
    }

    /** `Thread.join`: the others move until thread `i` has ended; those that have ended stay ended. */
    method Join(i: nat)
      requires board.Valid() && i < |board.threads|
      modifies board, board.log
      ensures board.Valid() && i < |board.threads| && board.threads[i].pc.Finished?
      ensures Requests(board.threads) == Requests(old(board.threads))
      ensures |board.threads| == |old(board.threads)|
      ensures forall j :: 0 <= j < |board.threads| && old(board.threads)[j].pc.Finished? ==>
                board.threads[j].pc.Finished?
    {
      var env := Env(None, Nobody, None);
      while !board.threads[i].pc.Finished?
        invariant board.Valid() && |board.threads| == |old(board.threads)|
        invariant Requests(board.threads) == Requests(old(board.threads))
        invariant forall j :: 0 <= j < |board.threads| && old(board.threads)[j].pc.Finished? ==>
                    board.threads[j].pc.Finished?
        decreases Remaining(board.Abs())
      {
        ghost var u := board.Abs();
        ghost var j := ReachableMoves(u);
        assert CanDo(u, Line(j)) && Allowed(env, u, Line(j));
        var e := board.OneEvent(env);
        DoKeepsThreads(u, e);
        assert Requests(board.threads) == Requests(u.threads);
      }
    }
  }

  /** The thread that serves one connection. */
  class ClientWorker {
    const board: SharedServerObject
    const rSeq: int
    const line: Option<string>   // what readLine returns

    constructor (board: SharedServerObject, rSeq: int, line: Option<string>)
      ensures this.board == board && this.rSeq == rSeq && this.line == line
    {
      this.board := board;
      this.rSeq := rSeq;
      this.line := line;
    }

    /** A well-formed line is served and answered with the printed record, which is
        logged; any other line is answered with nothing and leaves no record. */
    method Run(self: nat) returns (response: Option<string>)
      requires board.Valid() && self < |board.threads|
      requires board.threads[self] == Thread(ServeLine(line), rSeq, Ready, 0, 0, 0)
      modifies board, board.log
      ensures board.Valid() && Leads(old(board.Abs()), board.Abs())
      ensures self < |board.threads| && board.threads[self].req == ServeLine(line)
      ensures board.threads[self].pc == if Touches(ServeLine(line)) then Logged else Ready
      ensures response.Some? <==> Touches(ServeLine(line))
      ensures response.Some? ==>
        && response.value == PrintRecord(RecordOf(board.threads[self])) + "\n"
        && board.threads[self].rSeq == rSeq
        && Recorded(old(board.Abs()), board.Abs(), RecordOf(board.threads[self]))
    {
      LeadsRefl(board.Abs());
      response := None;
      if line.None? { return; }
      var splittedData := Split(line.value);
      if |splittedData| < 2 || ParseInt(splittedData[1]).None? { return; }
      var id := ParseInt(splittedData[1]).value;
      var kind := ToRequestType(splittedData[0]);
      var r: Record;
      if kind == Some(WRITE) {
        if |splittedData| < 3 || ParseInt(splittedData[2]).None? { return; }
        var val := ParseInt(splittedData[2]).value;
        r := board.WriteValue(self, id, rSeq, val);
      } else if kind == Some(READ) {
        r := board.ReadValue(self, id, rSeq);
      } else {
        return;
      }
      response := Some(PrintRecord(r) + "\n");
    }
  }
}
