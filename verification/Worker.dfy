/** The client's request loop, and what its log says about the server's history. */
module Clients {
  import opened Wrappers
  import opened Records
  import opened Protocol
  import opened Invariants
  import opened Theorems
  import opened Progress
  import opened Text
  import opened Codec
  import opened Logs
  import opened SharedObject

  /** The client id a record names. */
  function ClientOf(r: Record): int {
    match r
    case ReadRecord(_, _, _, _, rId) => rId
    case WriteRecord(_, _, _, wId) => wId
  }

  predicate IsMine(r: Record, kind: RequestType, id: int) {
    KindOf(r) == kind && ClientOf(r) == id
  }

  /** The records of one client, in the order of the history. */
  function Mine(h: seq<Record>, kind: RequestType, id: int): seq<Record> {
    if h == [] then []
    else
      var rest := Mine(h[..|h| - 1], kind, id);
      if IsMine(h[|h| - 1], kind, id) then rest + [h[|h| - 1]] else rest
  }

  ghost predicate Increasing(log: seq<Record>) {
    && (forall i, j :: 0 <= i < j < |log| ==> log[i].sSeq < log[j].sSeq)
    && (forall i, j :: 0 <= i < j < |log| ==> log[i].rSeq < log[j].rSeq)
  }

  // ---------- what the client has of the history ----------

  /** A writer asks for its own id to be written. */
  predicate OwnValue(req: Request) {
    req.Write? ==> req.value == req.id
  }

  /** The record `r` is that of a call of the client which is not among the lost ones. */
  ghost predicate KeptRecord(ts: seq<Thread>, o: Owner, lost: set<nat>, r: Record) {
    && 1 <= r.rSeq <= |ts| && r.rSeq - 1 !in lost
    && Owns(o, ts[r.rSeq - 1].req) && OwnValue(ts[r.rSeq - 1].req)
    && HasLogged(ts[r.rSeq - 1]) && RecordOf(ts[r.rSeq - 1]) == r
  }

  /** The call of thread `j` is lost, or not the client's, or its record is in the client's log. */
  ghost predicate KeptCall(ts: seq<Thread>, o: Owner, log: seq<Record>, lost: set<nat>, j: nat)
    requires j < |ts|
  {
    Owns(o, ts[j].req) && j !in lost ==> HasLogged(ts[j]) && RecordOf(ts[j]) in log
  }

  /** The client's log holds the records of its calls, without those whose answer is
      lost or still to come, in the order in which they were made and served. */
  ghost predicate Kept(s: State, o: Owner, log: seq<Record>, lost: set<nat>) {
    && (forall r :: r in log ==> KeptRecord(s.threads, o, lost, r))
    && (forall j: nat :: j < |s.threads| ==> KeptCall(s.threads, o, log, lost, j))
    && Increasing(log)
    && (forall r :: r in log ==> r.sSeq <= |s.history|)
    && (forall j :: j in lost ==> j < |s.threads|)
  }

  /** What the others do does not change what the client has. */
  lemma KeptLater(s: State, t: State, env: Env, log: seq<Record>, lost: set<nat>)
    requires Kept(s, env.owner, log, lost) && Interfered(env, s, t)
    ensures Kept(t, env.owner, log, lost)
  {
    forall r | r in log ensures KeptRecord(t.threads, env.owner, lost, r) {
      assert KeptRecord(s.threads, env.owner, lost, r);
    }
    forall j: nat | j < |t.threads| ensures KeptCall(t.threads, env.owner, log, lost, j) {
      if j < |s.threads| {
        assert KeptCall(s.threads, env.owner, log, lost, j);
      } else {
        assert StrangerAt(env, t.threads, j);
      }
    }
  }

  /** A new call counts as lost until it is answered. */
  lemma KeptCalled(s: State, o: Owner, log: seq<Record>, lost: set<nat>, req: Request)
    requires Kept(s, o, log, lost)
    ensures Kept(Arrive(s, req), o, log, lost + {|s.threads|})
  {
    var t, lost' := Arrive(s, req), lost + {|s.threads|};
    forall r | r in log ensures KeptRecord(t.threads, o, lost', r) {
      assert KeptRecord(s.threads, o, lost, r);
    }
    forall j: nat | j < |t.threads| ensures KeptCall(t.threads, o, log, lost', j) {
      if j < |s.threads| { assert KeptCall(s.threads, o, log, lost, j); }
    }
  }

  /** The answer to the last call joins the log. */
  lemma KeptAnswer(t: State, o: Owner, log: seq<Record>, lost: set<nat>, k: nat)
    requires Kept(t, o, log, lost + {k}) && k !in lost && k < |t.threads|
    requires Owns(o, t.threads[k].req) && OwnValue(t.threads[k].req)
    requires HasLogged(t.threads[k]) && t.threads[k].rSeq == k + 1 && t.threads[k].sSeq <= |t.history|
    requires forall r :: r in log ==> r.rSeq <= k && r.sSeq < t.threads[k].sSeq
    ensures Kept(t, o, log + [RecordOf(t.threads[k])], lost)
  {
    var log' := log + [RecordOf(t.threads[k])];
    forall r | r in log' ensures KeptRecord(t.threads, o, lost, r) {
      if r in log { assert KeptRecord(t.threads, o, lost + {k}, r); }
    }
    forall j: nat | j < |t.threads| ensures KeptCall(t.threads, o, log', lost, j) {
      assert KeptCall(t.threads, o, log, lost + {k}, j);
    }
    AppendIncreases(log, RecordOf(t.threads[k]));
  }

  lemma AppendIncreases(log: seq<Record>, r: Record)
    requires Increasing(log) && forall q :: q in log ==> q.sSeq < r.sSeq && q.rSeq < r.rSeq
    ensures Increasing(log + [r])
  {
    var log' := log + [r];
    forall i | 0 <= i < |log| ensures log'[i].sSeq < r.sSeq && log'[i].rSeq < r.rSeq {
      assert log[i] in log;
    }
  }

  lemma OwnsIsMine(t: Thread, kind: RequestType, id: int)
    requires Touches(t.req)
    ensures IsMine(RecordOf(t), kind, id) <==> Owns(Client(kind, id), t.req)
  {
  }

  lemma MineSnoc(h: seq<Record>, r: Record, kind: RequestType, id: int)
    ensures Mine(h + [r], kind, id) == Mine(h, kind, id) + if IsMine(r, kind, id) then [r] else []
  {
    assert (h + [r])[..|h|] == h;
  }

  lemma FirstIsIn(log: seq<Record>)
    ensures log != [] ==> log[0] in log
  {
  }

  /** The records of the client in `h`, in an increasing list. */
  ghost predicate Lists(h: seq<Record>, kind: RequestType, id: int, log: seq<Record>) {
    && (forall i, j :: 0 <= i < j < |log| ==> log[i].sSeq < log[j].sSeq)
    && (forall r :: r in log <==> r in h && IsMine(r, kind, id))
  }

  /** The last of the history, if it is the client's, is the last of the list. */
  lemma LastIsListed(h: seq<Record>, kind: RequestType, id: int, log: seq<Record>)
    requires h != [] && Theorems.Numbered(h) && Lists(h, kind, id, log) && IsMine(h[|h| - 1], kind, id)
    ensures log != [] && log[|log| - 1] == h[|h| - 1]
  {
    var last := h[|h| - 1];
    assert last in log;
    var i :| 0 <= i < |log| && log[i] == last;
    assert log[|log| - 1] in log;
    assert log[|log| - 1].sSeq <= |h|;
  }

  lemma ListsFront(h: seq<Record>, kind: RequestType, id: int, log: seq<Record>)
    requires h != [] && Theorems.Numbered(h) && Lists(h, kind, id, log)
    ensures
      var front, last := h[..|h| - 1], h[|h| - 1];
      if IsMine(last, kind, id) then log != [] && log == log[..|log| - 1] + [last] && Lists(front, kind, id, log[..|log| - 1])
      else Lists(front, kind, id, log)
  {
    var front, last := h[..|h| - 1], h[|h| - 1];
    assert h == front + [last];
    if IsMine(last, kind, id) {
      LastIsListed(h, kind, id, log);
      var rest := log[..|log| - 1];
      assert log == rest + [last];
      assert last !in front && last !in rest;
      forall r ensures r in rest <==> r in front && IsMine(r, kind, id) {
        assert r in log <==> r in rest || r == last;
      }
    }
  }

  /** Such a list is the client's part of the history. */
  lemma {:induction false} ListIsMine(h: seq<Record>, kind: RequestType, id: int, log: seq<Record>)
    requires Theorems.Numbered(h) && Lists(h, kind, id, log)
    ensures log == Mine(h, kind, id)
  {
    if h == [] {
      FirstIsIn(log);
    } else {
      hide Lists, IsMine;
      ListsFront(h, kind, id, log);
      var front := h[..|h| - 1];
      ListIsMine(front, kind, id, if IsMine(h[|h| - 1], kind, id) then log[..|log| - 1] else log);
    }
  }

  /** Every record of the log is in the server's log, once; every record of the client in
      the history is in its log or belongs to a lost call; so with no call lost the log is,
      record for record, the client's part of the history. */
  lemma KeptIsLogged(t: State, kind: RequestType, id: int, log: seq<Record>, lost: set<nat>)
    requires Reachable(t) && Kept(t, Client(kind, id), log, lost)
    ensures forall r :: r in log ==>
              && r in t.history && IsMine(r, kind, id) && LogBag(t)[r] == 1
              && (r.WriteRecord? ==> r.oVal == id)
    ensures forall r :: r in t.history && IsMine(r, kind, id) ==> (r in log <==> r.rSeq - 1 !in lost)
    ensures lost == {} ==> log == Mine(t.history, kind, id)
    ensures Increasing(log)
  {
    hide Reachable, LogBag;
    ReachableNumbers(t);
    forall r | r in log
      ensures r in t.history && IsMine(r, kind, id) && LogBag(t)[r] == 1 && (r.WriteRecord? ==> r.oVal == id)
    {
      assert KeptRecord(t.threads, Client(kind, id), lost, r);
      OwnsIsMine(t.threads[r.rSeq - 1], kind, id);
      RecordIsLogged(t, r.rSeq - 1);
      assert DrawnAt(t.threads, t.history, r.rSeq - 1) && ShapeOf(t.threads[r.rSeq - 1], r.rSeq - 1);
    }
    forall r | r in t.history && IsMine(r, kind, id) ensures r in log <==> r.rSeq - 1 !in lost {
      if r in log { assert KeptRecord(t.threads, Client(kind, id), lost, r); }
      var k: nat :| k < |t.history| && t.history[k] == r;
      assert RecordAt(t.threads, t.history, k);
      OwnsIsMine(t.threads[r.rSeq - 1], kind, id);
      assert KeptCall(t.threads, Client(kind, id), log, lost, r.rSeq - 1);
    }
    if lost == {} {
      ReachableHistory(t);
      ListIsMine(t.history, kind, id, log);
    }
  }

  lemma ReachableHistory(t: State)
    requires Reachable(t)
    ensures Theorems.Numbered(t.history)
  {
    ReachableInv(t);
    HistoryNumbered(t);
  }

  /** What the server reads of the client's request, over either transport. */
  function Delivered(kind: RequestType, id: int, rmi: bool): Request {
    if rmi then ServeCall(RemoteCall(Some(id), Some(Tag(kind)), Some(id)))
    else ServeLine(ReadLine(RequestMessage(kind, PrintInt(id)) + "\n"))
  }

  /** What the client makes of the server's answer, over either transport. */
  function Answered(kind: RequestType, r: Record, rmi: bool): Option<Record> {
    if rmi then ParseRecord(kind, PrintRecord(r))
    else
      match ReadLine(PrintRecord(r) + "\n")
      case None => None
      case Some(line) => ParseRecord(kind, line)
  }

  lemma Transport(kind: RequestType, id: int, rmi: bool)
    requires Int32(id)
    ensures Delivered(kind, id, rmi) == ClientRequest(kind, id)
    ensures forall r :: AllInt32(Fields(r)) && KindOf(r) == kind ==> Answered(kind, r, rmi) == Some(r)
  {
    RequestRoundTrip(kind, id);
    forall r | AllInt32(Fields(r)) && KindOf(r) == kind ensures Answered(kind, r, rmi) == Some(r) {
      RecordRoundTrip(r);
    }
  }

  // ---------- the turns of the request loop ----------

  /** What one turn brings: an answer; no connection; or a connection or call whose
      answer does not come, for a request that arrives at the server or not. */
  datatype Turn = Replied | Refused | Lost(arrives: bool)

  /** The turns before the `m`-th that bring an answer. */
  ghost function RepliedTurns(turns: seq<Turn>, m: nat): set<nat> {
    set i: nat | i < m <= |turns| && turns[i].Replied?
  }

  /** The turns before the `m`-th whose request arrives and whose answer is lost. */
  ghost function LostTurns(turns: seq<Turn>, m: nat): set<nat> {
    set i: nat | i < m <= |turns| && turns[i] == Lost(true)
  }

  lemma NoTurns(turns: seq<Turn>)
    ensures RepliedTurns(turns, 0) == {} && LostTurns(turns, 0) == {}
  {
  }

  lemma OneMoreTurn(turns: seq<Turn>, m: nat)
    requires m < |turns|
    ensures |RepliedTurns(turns, m + 1)| == |RepliedTurns(turns, m)| + if turns[m].Replied? then 1 else 0
    ensures |LostTurns(turns, m + 1)| == |LostTurns(turns, m)| + if turns[m] == Lost(true) then 1 else 0
  {
    var replied, lost := RepliedTurns(turns, m), LostTurns(turns, m);
    assert RepliedTurns(turns, m + 1) == if turns[m].Replied? then replied + {m} else replied;
    assert LostTurns(turns, m + 1) == if turns[m] == Lost(true) then lost + {m} else lost;
  }

  lemma AllReplied(turns: seq<Turn>, m: nat)
    requires m <= |turns| && forall i :: 0 <= i < m ==> turns[i].Replied?
    ensures |RepliedTurns(turns, m)| == m && LostTurns(turns, m) == {}
  {
    assert RepliedTurns(turns, m) == Indices(m);
  }

  lemma InRangeLater(env: Env, s: State, t: State)
    requires Interfered(env, s, t) && RequestsInRange(s.threads)
    ensures RequestsInRange(t.threads)
  {
    forall j: nat | j < |t.threads| ensures InRange(t.threads[j].req) {
      if j >= |s.threads| { assert StrangerAt(env, t.threads, j); }
    }
  }

  /** A client that has made no call has no record. */
  lemma NothingKept(s: State, o: Owner)
    requires forall j :: 0 <= j < |s.threads| ==> !Owns(o, s.threads[j].req)
    ensures Kept(s, o, [], {})
  {
  }

  lemma KeptBelow(s: State, o: Owner, log: seq<Record>, lost: set<nat>)
    requires Kept(s, o, log, lost)
    ensures forall r :: r in log ==> r.rSeq <= |s.threads| && r.sSeq <= |s.history|
    ensures |s.threads| !in lost
  {
    forall r | r in log ensures r.rSeq <= |s.threads| {
      assert KeptRecord(s.threads, o, lost, r);
    }
  }

  /** The fields of an answer are 32-bit ints, so it survives the way back. */
  lemma AnswerFits(t: State, k: nat)
    requires Reachable(t) && t.limit < INT_MAX && RequestsInRange(t.threads)
    requires k < |t.threads| && HasLogged(t.threads[k])
    ensures AllInt32(Fields(RecordOf(t.threads[k])))
  {
    CountersFit(t);
    ReachableNumbers(t);
    assert DrawnAt(t.threads, t.history, k);
  }

  class Worker {
    const kind: RequestType
    const log: Log

    constructor (kind: RequestType)
      ensures this.kind == kind && fresh(log) && log.readRecords == [] && log.writeRecords == []
    {
      this.kind := kind;
      log := new Log();
    }

    function Records(): seq<Record>
      reads this, log
    {
      if kind == READ then log.readRecords else log.writeRecords
    }

    /** The client waits for the answer to its call `k` while the others make requests
        and the server works. */
    method Await(board: SharedServerObject, env: Env, k: nat) returns (r: Record)
      requires board.Valid() && env.self.None? && HasRoom(env, board.Abs())
      requires k < |board.threads| && Touches(board.threads[k].req) && !HasDrawn(board.threads[k])
      modifies board, board.log
      ensures board.Valid() && Interfered(env, old(board.Abs()), board.Abs())
      ensures k < |board.threads| && HasLogged(board.threads[k]) && r == RecordOf(board.threads[k])
      ensures |old(board.history)| < r.sSeq <= |board.history| && r.rSeq == k + 1
    {
      hide Reachable, Leads, Remaining;
      ghost var s := board.Abs();
      InterferedRefl(env, s);
      while !HasLogged(board.threads[k])
        invariant board.Valid() && Interfered(env, s, board.Abs())
        invariant k < |board.threads| && board.threads[k].req == s.threads[k].req
        decreases Remaining(board.Abs())
      {
        ghost var u := board.Abs();
        ghost var j := ReachableMoves(u);
        assert CanDo(u, Line(j)) && Allowed(env, u, Line(j));
        var e := board.OneEvent(env);
        InterferedStep(env, s, u, e);
      }
      r := RecordOf(board.threads[k]);
      DrawnLater(s, board.Abs(), k);
      ReachableNumbers(board.Abs());
      assert ShapeOf(board.threads[k], k);
    }

    /** What holds between two turns. */
    ghost predicate Between(board: SharedServerObject, id: int, lost: set<nat>)
      reads this, log, board, board.log
    {
      && log != board.log && board.Valid() && board.limit < INT_MAX && Int32(id)
      && RequestsInRange(board.threads) && Kept(board.Abs(), Client(kind, id), Records(), lost)
      && |log.readRecords| + |log.writeRecords| == |Records()|
    }

    /** While the client sleeps, the others make requests and the server works. */
    method Sleep(board: SharedServerObject, id: int, room: nat, ghost lost: set<nat>)
      requires Between(board, id, lost) && |board.threads| + room <= board.limit
      modifies board, board.log
      ensures Between(board, id, lost) && |board.threads| + room <= board.limit
    {
      hide Reachable, Kept;
      var env := Env(None, Client(kind, id), Some(room));
      board.Interfere(env);
      KeptLater(old(board.Abs()), board.Abs(), env, Records(), lost);
      InRangeLater(env, old(board.Abs()), board.Abs());
    }

    /** The request is sent and its answer awaited, parsed and added to the log. */
    method Ask(board: SharedServerObject, id: int, room: nat, rmi: bool, ghost lost: set<nat>)
      requires Between(board, id, lost) && |board.threads| + room + 1 <= board.limit
      modifies board, board.log, log
      ensures Between(board, id, lost) && |board.threads| + room <= board.limit
      ensures |Records()| == |old(Records())| + 1 && old(Records()) == Records()[..|Records()| - 1]
      ensures Records()[|Records()| - 1].rSeq == |old(board.threads)| + 1
    {
      hide Reachable, Kept, Delivered, Answered, Leads, Fields, AllInt32;
      var env := Env(None, Client(kind, id), Some(room));
      ghost var mine := Records();
      Transport(kind, id, rmi);
      KeptBelow(board.Abs(), env.owner, mine, lost);
      KeptCalled(board.Abs(), env.owner, mine, lost, ClientRequest(kind, id));
      var k := board.Begin(Delivered(kind, id, rmi), |board.threads| + 1);
      ghost var s := board.Abs();
      var r := Await(board, env, k);
      KeptLater(s, board.Abs(), env, mine, lost + {k});
      InRangeLater(env, s, board.Abs());
      AnswerFits(board.Abs(), k);
      KeptAnswer(board.Abs(), env.owner, mine, lost, k);
      match Answered(kind, r, rmi)
      case Some(rec) => log.AddToLog(rec);
      case None =>
    }

    /** One turn of the loop.  The request of a lost turn may have arrived and may be
        served at any later time; `going` is false if an exception leaves the loop. */
    method MakeRequest(board: SharedServerObject, id: int, room: nat, rmi: bool, turns: seq<Turn>, i: nat,
                       connected: bool, ghost lost: set<nat>)
      returns (going: bool, ghost lost': set<nat>)
      requires i < |turns| && Between(board, id, lost) && |board.threads| + room + 1 <= board.limit
      requires connected <==> exists j :: 0 <= j < i && !turns[j].Refused?
      modifies board, board.log, log
      ensures Between(board, id, lost') && |board.threads| + room <= board.limit
      ensures going <==> if rmi then turns[i].Replied? else connected || !turns[i].Refused?
      ensures |Records()| == |old(Records())| + if turns[i].Replied? then 1 else 0
      ensures |lost'| <= |lost| + if turns[i] == Lost(true) then 1 else 0
    {
      going, lost' := true, lost;
      match turns[i]
      case Replied =>
        Ask(board, id, room, rmi, lost);
      case Refused =>
        going := !rmi && connected;
      case Lost(arrives) =>
        going := !rmi;
        if arrives {
          lost' := lost + {|board.threads|};
          Transport(kind, id, rmi);
          KeptCalled(board.Abs(), Client(kind, id), Records(), lost, ClientRequest(kind, id));
          var _ := board.Begin(Delivered(kind, id, rmi), |board.threads| + 1);
        }
    }

    /** The request loop of the socket worker and of the RMI client, among any requests of
        other clients and whatever becomes of the connections.  `m` turns are made; each
        answered one adds its record to the log, in strictly increasing sSeq and rSeq, and
        the server has logged each of these once.  A record of the client in the history
        that is not in its log belongs to one of the lost calls; without these the log
        is, record for record, the client's part of the server's history. */
    method Execute(board: SharedServerObject, id: int, numRequests: int, rmi: bool, turns: seq<Turn>)
      returns (finished: bool, ghost m: nat, ghost lost: set<nat>)
      requires board.Valid() && RequestsInRange(board.threads) && board.limit < INT_MAX && Int32(id)
      requires log != board.log && log.readRecords == [] && log.writeRecords == []
      requires numRequests <= |turns|
      requires numRequests > 0 ==> |board.threads| + numRequests <= board.limit
      requires forall j :: 0 <= j < |board.threads| ==> !Owns(Client(kind, id), board.threads[j].req)
      modifies board, board.log, log
      ensures board.Valid()
      ensures m <= |turns|
      ensures finished <==>
                numRequests <= 0 || if rmi then forall i :: 0 <= i < numRequests ==> turns[i].Replied? else !turns[0].Refused?
      ensures finished ==> m == if numRequests > 0 then numRequests else 0
      ensures !finished && rmi ==> m > 0 && !turns[m - 1].Replied? && forall i :: 0 <= i < m - 1 ==> turns[i].Replied?
      ensures !finished && !rmi ==> m == 1
      ensures |log.readRecords| + |log.writeRecords| == |Records()| == |RepliedTurns(turns, m)|
      ensures Increasing(Records())
      ensures forall r :: r in Records() ==>
                && r in board.history && IsMine(r, kind, id) && LogBag(board.Abs())[r] == 1
                && (r.WriteRecord? ==> r.oVal == id)
      ensures |lost| <= |LostTurns(turns, m)|
      ensures forall r :: r in board.history && IsMine(r, kind, id) ==> (r in Records() <==> r.rSeq - 1 !in lost)
      ensures lost == {} ==> Records() == Mine(board.history, kind, id)
      ensures (forall i :: 0 <= i < m ==> turns[i].Replied?) ==> lost == {} && |Records()| == m
    {
      hide Reachable, Kept, RepliedTurns, LostTurns, RequestsInRange, Increasing, IsMine, Mine, LogBag;
      finished, lost := true, {};
      NothingKept(board.Abs(), Client(kind, id));
      NoTurns(turns);
      var i := 0;
      var connected := false;
      while finished && i < numRequests
        invariant 0 <= i && (numRequests > 0 ==> i <= numRequests) && (numRequests <= 0 ==> i == 0)
        invariant Between(board, id, lost)
        invariant numRequests > 0 ==> |board.threads| + numRequests - i <= board.limit
        invariant connected <==> exists j :: 0 <= j < i && !turns[j].Refused?
        invariant finished && rmi ==> forall j :: 0 <= j < i ==> turns[j].Replied?
        invariant finished && !rmi && i > 0 ==> !turns[0].Refused?
        invariant !finished && rmi ==> i > 0 && !turns[i - 1].Replied? && forall j :: 0 <= j < i - 1 ==> turns[j].Replied?
        invariant !finished && !rmi ==> i == 1 && turns[0].Refused?
        invariant |Records()| == |RepliedTurns(turns, i)| && |lost| <= |LostTurns(turns, i)|
      {
        Sleep(board, id, numRequests - i, lost);
        finished, lost := MakeRequest(board, id, numRequests - i - 1, rmi, turns, i, connected, lost);
        connected := connected || !turns[i].Refused?;
        OneMoreTurn(turns, i);
        i := i + 1;
      }
      m := i;
      KeptIsLogged(board.Abs(), kind, id, Records(), lost);
      if forall j :: 0 <= j < m ==> turns[j].Replied? { AllReplied(turns, m); }
    }
  }

  // ---------- a server driven by these clients ----------

  /** Every write asks for its writer's id, as these clients do. */
  ghost predicate ClientDriven(ts: seq<Thread>) {
    forall i :: 0 <= i < |ts| && ts[i].req.Write? ==> ts[i].req == ClientRequest(WRITE, ts[i].req.id)
  }

  /** In every run driven by these clients each write publishes its writer's id, and each
      read of the sorted log returns the id of the last writer before it, or -1. */
  lemma NewsIsWriterId(t: State, log: seq<Record>, k: nat)
    requires Reachable(t) && Settled(t.threads) && ClientDriven(t.threads)
    requires multiset(log) == LogBag(t) && SortedBySSeq(log) && k < |log|
    ensures log[k].WriteRecord? ==> log[k].oVal == log[k].wId
    ensures log[k].ReadRecord? ==>
              || (log[k].oVal == -1 && NoWrite(log, 0, k))
              || exists w :: LastWrite(log, w, k) && log[w].wId == log[k].oVal
  {
    Linearizable(t, log);
    WriterIds(t);
    if log[k].ReadRecord? && !NoWrite(log, 0, k) {
      CurrentIsLastWrite(log, k);
      var w :| LastWrite(log, w, k);
      assert log[w].wId == log[w].oVal == log[k].oVal;
    }
  }

  lemma WriterIds(t: State)
    requires Reachable(t) && ClientDriven(t.threads)
    ensures forall k :: 0 <= k < |t.history| && t.history[k].WriteRecord? ==> t.history[k].oVal == t.history[k].wId
  {
    ReachableNumbers(t);
    forall k: nat | k < |t.history| && t.history[k].WriteRecord?
      ensures t.history[k].oVal == t.history[k].wId
    {
      assert RecordAt(t.threads, t.history, k);
      assert ShapeOf(t.threads[t.history[k].rSeq - 1], t.history[k].rSeq - 1);
    }
  }
}
