/**
The shared object as a class.  Its methods are the lines of the source, and
`ReadValue` and `WriteValue` put them together with any number of events of the
other threads between any two lines.
*/
module SharedObject {
  import opened Wrappers
  import opened Records
  import opened Text
  import opened Protocol
  import opened Invariants
  import opened Theorems
  import opened Progress
  import opened Codec
  import opened Logs

  /** The client whose requests an environment may not make in its stead. */
  datatype Owner = Nobody | Client(kind: RequestType, id: int)

  predicate Owns(o: Owner, req: Request) {
    match o
    case Nobody => false
    case Client(READ, id) => req.Read? && req.id == id
    case Client(WRITE, id) => req.Write? && req.id == id
  }

  lemma ReachableDo(s: State, e: Event)
    requires Reachable(s) && CanDo(s, e)
    ensures Reachable(Do(s, e)) && Leads(s, Do(s, e))
    ensures Remaining(Do(s, e)) == Remaining(s) - 1 >= 0
  {
    ReachableInv(s);
    EventCosts(s, e);
    LeadsRefl(s);
    LeadsStep(s, s, e);
    LeadsStep(Init(s.limit), s, e);
    DoKeepsLimit(s, e);
    ReachableInv(Do(s, e));
    RemainingNat(Do(s, e));
  }

  lemma DoKeepsLimit(s: State, e: Event)
    requires CanDo(s, e)
    ensures Do(s, e).limit == s.limit
  {
  }

  /** What the log and the history say of the record `r` of a call that started in
      `s` and has been logged in `t`. */
  ghost predicate Recorded(s: State, t: State, r: Record) {
    && |s.history| < r.sSeq <= |t.history|
    && t.history[r.sSeq - 1] == r
    && LogBag(t)[r] == 1
    && (r.ReadRecord? ==> r in t.readLog && r.oVal == Current(t.history[..r.sSeq - 1]))
    && (r.WriteRecord? ==> r in t.writeLog)
  }

  lemma LoggedIsRecorded(s: State, t: State, i: nat)
    requires Reachable(s) && Leads(s, t)
    requires i < |s.threads| && !HasDrawn(s.threads[i])
    requires i < |t.threads| && HasLogged(t.threads[i])
    ensures Recorded(s, t, RecordOf(t.threads[i]))
  {
    hide Reachable, Leads, LogBag, Legal, Later;
    DrawnLater(s, t, i);
    Continued(s, t);
    var r := RecordOf(t.threads[i]);
    RecordIsLogged(t, i);
    if r.ReadRecord? {
      LegalAt(t.history, r.sSeq - 1);
    }
  }

  lemma RecordIsLogged(t: State, i: nat)
    requires Reachable(t) && i < |t.threads| && HasLogged(t.threads[i])
    ensures Legal(t.history)
    ensures LogBag(t)[RecordOf(t.threads[i])] == 1
    ensures t.threads[i].req.Read? ==> RecordOf(t.threads[i]) in t.readLog
    ensures t.threads[i].req.Write? ==> RecordOf(t.threads[i]) in t.writeLog
  {
    ReachableInv(t);
    assert DrawnAt(t.threads, t.history, i) && ShapeOf(t.threads[i], i);
    var r := RecordOf(t.threads[i]);
    assert InLog(t.threads, t.history, r);
    assert r in LogBag(t);
    assert r in t.readLog || r in t.writeLog;
  }

  /** Which events an environment may cause: lines of any thread but `self`, and, if
      there is `room`, new requests with 32-bit arguments other than those of `owner`,
      as long as that many requests can still be made. */
  datatype Env = Env(self: Option<nat>, owner: Owner, room: Option<nat>)

  predicate Foreign(env: Env, req: Request) {
    env.room.Some? && !Owns(env.owner, req) && InRange(req)
  }

  predicate Allowed(env: Env, s: State, e: Event) {
    match e
    case Call(req) => Foreign(env, req) && |s.threads| + env.room.value < s.limit
    case Line(i) => env.self != Some(i)
  }

  /** Between two lines of a call every event is allowed that is not a line of its own
      thread: any line of any other thread, and any further call with 32-bit arguments. */
  lemma OthersAreFree(self: nat, s: State, e: Event)
    requires CanDo(s, e) && e != Line(self)
    requires e.Call? && e.req.Read? ==> Int32(e.req.id)
    requires e.Call? && e.req.Write? ==> Int32(e.req.id) && Int32(e.req.value)
    ensures Allowed(Env(Some(self), Nobody, Some(0)), s, e)
  {
  }

  /** While a client sleeps or waits every line of every thread is allowed, and every call
      but those of its own kind and id, as long as its own remaining calls can still be made. */
  lemma OtherClientsAreFree(kind: RequestType, id: int, room: nat, s: State, e: Event)
    requires CanDo(s, e)
    requires e.Call? ==> |s.threads| + room < s.limit
    requires e.Call? && e.req.Read? ==> Int32(e.req.id) && (kind == WRITE || e.req.id != id)
    requires e.Call? && e.req.Write? ==> Int32(e.req.id) && Int32(e.req.value) && (kind == READ || e.req.id != id)
    ensures Allowed(Env(None, Client(kind, id), Some(room)), s, e)
  {
  }

  ghost predicate StrangerAt(env: Env, ts: seq<Thread>, k: nat)
    requires k < |ts|
  {
    Foreign(env, ts[k].req)
  }

  /** The threads from `n` on are requests the environment may make. */
  ghost predicate Strangers(env: Env, n: nat, ts: seq<Thread>) {
    && (n < |ts| ==> env.room.Some?)
    && forall k: nat :: n <= k < |ts| ==> StrangerAt(env, ts, k)
  }

  /** The requests the environment leaves room for can still be made. */
  predicate HasRoom(env: Env, s: State) {
    env.room.Some? && |s.threads| + env.room.value <= s.limit
  }

  /** What the environment `env` may have done between `s` and `t`. */
  ghost predicate Interfered(env: Env, s: State, t: State) {
    && Leads(s, t) && Later(s, t) && Strangers(env, |s.threads|, t.threads)
    && t.limit == s.limit && (HasRoom(env, s) ==> HasRoom(env, t))
    && (env.self.Some? && env.self.value < |s.threads| ==> t.threads[env.self.value] == s.threads[env.self.value])
  }

  lemma InterferedRefl(env: Env, s: State)
    ensures Interfered(env, s, s)
  {
    LeadsRefl(s);
  }

  lemma StrangersStep(env: Env, n: nat, u: State, e: Event)
    requires Strangers(env, n, u.threads) && CanDo(u, e) && Allowed(env, u, e)
    ensures Strangers(env, n, Do(u, e).threads)
  {
    DoKeepsThreads(u, e);
    var ts := Do(u, e).threads;
    forall k: nat | n <= k < |ts| ensures StrangerAt(env, ts, k) {
      if k < |u.threads| { assert StrangerAt(env, u.threads, k); }
    }
  }

  lemma InterferedStep(env: Env, s: State, u: State, e: Event)
    requires Interfered(env, s, u) && CanDo(u, e) && Allowed(env, u, e)
    ensures Interfered(env, s, Do(u, e))
  {
    LeadsStep(s, u, e);
    LaterDo(s, u, e);
    StrangersStep(env, |s.threads|, u, e);
    DoKeepsThreads(u, e);
    DoKeepsLimit(u, e);
  }

  lemma DoKeepsThreads(u: State, e: Event)
    requires CanDo(u, e)
    ensures |u.threads| <= |Do(u, e).threads| <= |u.threads| + 1
    ensures e.Line? ==> |Do(u, e).threads| == |u.threads|
    ensures e.Call? ==> |Do(u, e).threads| == |u.threads| + 1 && Do(u, e).threads[|u.threads|].req == e.req
    ensures forall k :: 0 <= k < |u.threads| ==> Do(u, e).threads[k].req == u.threads[k].req
    ensures forall k :: 0 <= k < |u.threads| && e != Line(k) ==> Do(u, e).threads[k] == u.threads[k]
  {
  }

  /** Which events are possible does not depend on the history variables. */
  lemma SameEvents(env: Env, s: State, t: State)
    requires s == t.(arrivals := [], history := [])
    ensures forall e {:trigger CanDo(s, e)} {:trigger CanDo(t, e)} :: CanDo(s, e) == CanDo(t, e)
    ensures forall e {:trigger Allowed(env, s, e)} {:trigger Allowed(env, t, e)} :: Allowed(env, s, e) == Allowed(env, t, e)
  {
    SameLines(s, t);
  }

  lemma SameLines(s: State, t: State)
    requires s == t.(arrivals := [], history := [])
    ensures forall i {:trigger CanStep(s, i)} {:trigger CanStep(t, i)} :: CanStep(s, i) == CanStep(t, i)
  {
  }

  class SharedServerObject {
    const limit: nat
    const log: Log
    var val: int
    var sSeq: int
    var nRead: int
    var valLock: Lock

    // What the runtime keeps on the stacks of the threads: program counters and locals.
    var threads: seq<Thread>

    ghost var arrivals: seq<nat>     // the threads in the order in which they called lock()
    ghost var history: seq<Record>   // the records in the order in which they drew their numbers

    /** The protocol state of the object. */
    ghost function Abs(): State
      reads this, log
    {
      Visible().(arrivals := arrivals, history := history)
    }

    /** The part of it that decides what can happen next. */
    function Visible(): State
      reads this, log
    {
      State(limit, val, sSeq, nRead, valLock, log.readRecords, log.writeRecords, threads, [], [])
    }

    ghost predicate Valid()
      reads this, log
    {
      Reachable(Abs())
    }

    constructor (limit: nat)
      ensures Abs() == Init(limit) && Valid() && fresh(log)
    {
      this.limit := limit;
      log := new Log();
      val := -1;
      sSeq := 1;
      nRead := 0;
      valLock := Lock(None, {}, []);
      threads := [];
      arrivals, history := [], [];
      new;
      LeadsRefl(Init(limit));
    }

    /** A request is made: a thread starts with the number its server drew for it. */
    method Begin(req: Request, rSeq: int) returns (self: nat)
      requires Valid() && |threads| < limit && rSeq == |threads| + 1
      modifies this
      ensures Valid() && self == |old(threads)|
      ensures Abs() == Do(old(Abs()), Call(req))
      ensures Leads(old(Abs()), Abs())
    {
      ReachableDo(Abs(), Call(req));
      self := |threads|;
      threads := threads + [Thread(req, rSeq, Ready, 0, 0, 0)];
    }

    // ---------- the lines ----------

    /** The thread asks for the lock and joins the end of the queue. */
    method EnterQueue(i: nat)
      requires Valid() && i < |threads| && threads[i].pc.Ready? && Touches(threads[i].req)
      modifies this
      ensures Valid() && Leads(old(Abs()), Abs()) && Abs() == Step(old(Abs()), i)
      ensures threads == old(threads)[i := old(threads)[i].(pc := Queued)]
    {
      hide Reachable, Leads, Remaining;
      ReachableDo(Abs(), Line(i));
      valLock := valLock.(queue := valLock.queue + [i]);
      arrivals := arrivals + [i];
      threads := threads[i := threads[i].(pc := Queued)];
    }

    /** The lock admits the thread, in the mode of its request. */
    method Acquire(i: nat)
      requires Valid() && i < |threads| && threads[i].pc.Queued? && Touches(threads[i].req) && CanAcquire(Abs(), i)
      modifies this
      ensures Valid() && Leads(old(Abs()), Abs()) && Abs() == Step(old(Abs()), i)
      ensures threads == old(threads)[i := old(threads)[i].(pc := Holding)]
    {
      hide Reachable, Leads, Remaining;
      ReachableDo(Abs(), Line(i));
      if threads[i].req.Read? {
        valLock := valLock.(readers := valLock.readers + {i});
      } else {
        valLock := valLock.(writer := Some(i));
      }
      valLock := valLock.(queue := valLock.queue[1..]);
      threads := threads[i := threads[i].(pc := Holding)];
    }

    /** A reader counts itself and takes the count as its number. */
    method CountReader(i: nat) returns (rNum: int)
      requires Valid() && i < |threads| && threads[i].pc.Holding? && threads[i].req.Read?
      modifies this
      ensures Valid() && Leads(old(Abs()), Abs()) && Abs() == Step(old(Abs()), i)
      ensures threads == old(threads)[i := old(threads)[i].(pc := Counted, rNum := rNum)]
      ensures rNum == nRead == old(nRead) + 1
    {
      hide Reachable, Leads, Remaining;
      ReachableDo(Abs(), Line(i));
      nRead := nRead + 1;
      rNum := nRead;
      threads := threads[i := threads[i].(pc := Counted, rNum := rNum)];
    }

    /** A reader samples the news. */
    method SampleValue(i: nat) returns (value: int)
      requires Valid() && i < |threads| && threads[i].pc.Counted? && threads[i].req.Read?
      modifies this
      ensures Valid() && Leads(old(Abs()), Abs()) && Abs() == Step(old(Abs()), i)
      ensures threads == old(threads)[i := old(threads)[i].(pc := Valued, value := value)]
      ensures value == val
    {
      hide Reachable, Leads, Remaining;
      ReachableDo(Abs(), Line(i));
      value := val;
      threads := threads[i := threads[i].(pc := Valued, value := value)];
    }

    /** A writer sets the news. */
    method AssignValue(i: nat, value: int)
      requires Valid() && i < |threads| && threads[i].pc.Holding?
      requires threads[i].req.Write? && threads[i].req.value == value
      modifies this
      ensures Valid() && Leads(old(Abs()), Abs()) && Abs() == Step(old(Abs()), i)
      ensures threads == old(threads)[i := old(threads)[i].(pc := Valued, value := value)]
    {
      hide Reachable, Leads, Remaining;
      ReachableDo(Abs(), Line(i));
      val := value;
      threads := threads[i := threads[i].(pc := Valued, value := value)];
    }

    /** The thread draws its number and builds its record. */
    method DrawNumber(i: nat) returns (rec: Record)
      requires Valid() && i < |threads| && threads[i].pc.Valued? && Touches(threads[i].req)
      modifies this
      ensures Valid() && Leads(old(Abs()), Abs()) && Abs() == Step(old(Abs()), i)
      ensures threads == old(threads)[i := old(threads)[i].(pc := Drawn, sSeq := old(sSeq))]
      ensures rec == RecordOf(threads[i])
    {
      hide Reachable, Leads, Remaining;
      ReachableDo(Abs(), Line(i));
      var sSequ := sSeq;
      sSeq := sSeq + 1;
      threads := threads[i := threads[i].(pc := Drawn, sSeq := sSequ)];
      rec := RecordOf(threads[i]);
      history := history + [rec];
    }

    /** A reader leaves the count. */
    method UncountReader(i: nat)
      requires Valid() && i < |threads| && threads[i].pc.Drawn? && threads[i].req.Read?
      modifies this
      ensures Valid() && Leads(old(Abs()), Abs()) && Abs() == Step(old(Abs()), i)
      ensures threads == old(threads)[i := old(threads)[i].(pc := Uncounted)]
    {
      hide Reachable, Leads, Remaining;
      ReachableDo(Abs(), Line(i));
      nRead := nRead - 1;
      threads := threads[i := threads[i].(pc := Uncounted)];
    }

    /** A reader gives the lock back. */
    method UnlockRead(i: nat)
      requires Valid() && i < |threads| && threads[i].pc.Uncounted? && threads[i].req.Read?
      modifies this
      ensures Valid() && Leads(old(Abs()), Abs()) && Abs() == Step(old(Abs()), i)
      ensures threads == old(threads)[i := old(threads)[i].(pc := Unlocked)]
    {
      hide Reachable, Leads, Remaining;
      ReachableDo(Abs(), Line(i));
      valLock := valLock.(readers := valLock.readers - {i});
      threads := threads[i := threads[i].(pc := Unlocked)];
    }

    /** A writer gives the lock back. */
    method UnlockWrite(i: nat)
      requires Valid() && i < |threads| && threads[i].pc.Drawn? && threads[i].req.Write?
      modifies this
      ensures Valid() && Leads(old(Abs()), Abs()) && Abs() == Step(old(Abs()), i)
      ensures threads == old(threads)[i := old(threads)[i].(pc := Unlocked)]
    {
      hide Reachable, Leads, Remaining;
      ReachableDo(Abs(), Line(i));
      valLock := valLock.(writer := None);
      threads := threads[i := threads[i].(pc := Unlocked)];
    }

    /** The thread appends its record to the log. */
    method AppendRecord(i: nat, rec: Record)
      requires Valid() && i < |threads| && threads[i].pc.Unlocked?
      requires Touches(threads[i].req) && rec == RecordOf(threads[i])
      modifies this, log
      ensures Valid() && Leads(old(Abs()), Abs()) && Abs() == Step(old(Abs()), i)
      ensures threads == old(threads)[i := old(threads)[i].(pc := Logged)]
    {
      hide Reachable, Leads, Remaining;
      ReachableDo(Abs(), Line(i));
      log.AddToLog(rec);
      threads := threads[i := threads[i].(pc := Logged)];
    }

    /** The call returns, or ends without having touched the object. */
    method Return(i: nat)
      requires Valid() && i < |threads|
      requires if Touches(threads[i].req) then threads[i].pc.Logged? else threads[i].pc.Ready?
      modifies this
      ensures Valid() && Leads(old(Abs()), Abs()) && Abs() == Step(old(Abs()), i)
      ensures threads == old(threads)[i := old(threads)[i].(pc := Finished)]
    {
      hide Reachable, Leads, Remaining;
      ReachableDo(Abs(), Line(i));
      threads := threads[i := threads[i].(pc := Finished)];
    }

    /** The next line of thread `i`, whichever it is. */
    method RunLine(i: nat)
      requires Valid() && CanStep(Abs(), i)
      modifies this, log
      ensures Valid() && Leads(old(Abs()), Abs()) && Abs() == Step(old(Abs()), i)
    {
      ReachableInv(Abs());
      assert ShapeOf(threads[i], i);
      match threads[i].pc
      case Ready => if Touches(threads[i].req) { EnterQueue(i); } else { Return(i); }
      case Queued => Acquire(i);
      case Holding =>
        if threads[i].req.Read? { var _ := CountReader(i); } else { AssignValue(i, threads[i].req.value); }
      case Counted => var _ := SampleValue(i);
      case Valued => var _ := DrawNumber(i);
      case Drawn => if threads[i].req.Read? { UncountReader(i); } else { UnlockWrite(i); }
      case Uncounted => UnlockRead(i);
      case Unlocked => AppendRecord(i, RecordOf(threads[i]));
      case Logged => Return(i);
    }

    // ---------- the environment ----------

    /** One event, whichever it is. */
    method Perform(e: Event)
      requires Valid() && CanDo(Abs(), e)
      modifies this, log
      ensures Valid() && Abs() == Do(old(Abs()), e) && Leads(old(Abs()), Abs())
      ensures 0 <= Remaining(Abs()) < Remaining(old(Abs()))
    {
      ReachableDo(Abs(), e);
      match e
      case Call(req) => var _ := Begin(req, |threads| + 1);
      case Line(i) => RunLine(i);
    }

    /** One event of the environment, chosen freely. */
    method OneEvent(env: Env) returns (e: Event)
      requires Valid() && exists e :: CanDo(Abs(), e) && Allowed(env, Abs(), e)
      modifies this, log
      ensures Valid() && CanDo(old(Abs()), e) && Allowed(env, old(Abs()), e)
      ensures Abs() == Do(old(Abs()), e) && Leads(old(Abs()), Abs())
      ensures 0 <= Remaining(Abs()) < Remaining(old(Abs()))
    {
      hide CanDo, Allowed, Reachable, Leads;
      SameEvents(env, Visible(), Abs());
      e :| CanDo(Visible(), e) && Allowed(env, Visible(), e);
      Perform(e);
    }

    /** Any number of events of the environment. */
    method Interfere(env: Env)
      requires Valid()
      modifies this, log
      ensures Valid() && Interfered(env, old(Abs()), Abs())
    {
      var budget: nat :| true;
      InterferedRefl(env, Abs());
      while budget > 0
        invariant Valid() && Interfered(env, old(Abs()), Abs())
      {
        SameEvents(env, Visible(), Abs());
        assert Allowed(env, Abs(), Line(if env.self.Some? then env.self.value + 1 else 0));
        var e :| Allowed(env, Visible(), e);
        if CanDo(Visible(), e) {
          InterferedStep(env, old(Abs()), Abs(), e);
          Perform(e);
        }
        budget := budget - 1;
      }
    }

    /** Join the queue of the lock and wait, while others move, until the lock admits this thread. */
    method AwaitLock(self: nat)
      requires Valid() && self < |threads| && threads[self].pc.Ready? && Touches(threads[self].req)
      modifies this, log
      ensures Valid() && Leads(old(Abs()), Abs())
      ensures self < |threads| && threads[self] == old(threads)[self].(pc := Holding)
    {
      var env := Env(Some(self), Nobody, Some(0));
      EnterQueue(self);
      while !CanAcquire(Visible(), self)
        invariant Valid() && Leads(old(Abs()), Abs())
        invariant self < |threads| && threads[self] == old(threads)[self].(pc := Queued)
        decreases Remaining(Abs())
      {
        ghost var u := Abs();
        ReachableInv(u);
        ghost var j := QueueMoves(u, self);
        assert CanDo(u, Line(j)) && Allowed(env, u, Line(j));
        var e := OneEvent(env);
        LeadsStep(old(Abs()), u, e);
        DoKeepsThreads(u, e);
      }
      ghost var u := Abs();
      Acquire(self);
      LeadsTrans(old(Abs()), u, Abs());
    }

    /** Between two lines of a call that started in `s`, the others may move. */
    method Pause(self: nat, ghost s: State, ghost u: State)
      requires Valid() && self < |threads| && Leads(s, u) && Leads(u, Abs())
      modifies this, log
      ensures Valid() && Leads(s, Abs())
      ensures self < |threads| && threads[self] == old(threads)[self]
    {
      LeadsTrans(s, u, Abs());
      ghost var v := Abs();
      Interfere(Env(Some(self), Nobody, Some(0)));
      LeadsTrans(s, v, Abs());
    }

    /** A whole read, interrupted anywhere: it returns the value the register has at
        the place of its number, and its record is in the log. */
    method ReadValue(self: nat, id: int, rSeq: int) returns (rec: Record)
      requires Valid() && self < |threads| && threads[self] == Thread(Read(id), rSeq, Ready, 0, 0, 0)
      modifies this, log
      ensures Valid() && Leads(old(Abs()), Abs())
      ensures self < |threads| && threads[self].req == Read(id) && threads[self].pc.Logged?
      ensures rec == RecordOf(threads[self]) && rec.ReadRecord? && rec.rSeq == rSeq && rec.rId == id
      ensures Recorded(old(Abs()), Abs(), rec)
    {
      hide Step, CanStep, Reachable, Leads, Recorded;
      ghost var s := Abs();
      AwaitLock(self);
      Pause(self, s, Abs()) by { LeadsRefl(Abs()); }
      rec := ReadLocked(self, s);
      Pause(self, s, Abs()) by { LeadsRefl(Abs()); }
      ghost var u := Abs();
      AppendRecord(self, rec);
      LeadsTrans(s, u, Abs());
      LoggedIsRecorded(s, Abs(), self);
    }

    /** The part of a read under the lock. */
    method ReadLocked(self: nat, ghost s: State) returns (rec: Record)
      requires Valid() && self < |threads| && Leads(s, Abs())
      requires threads[self].req.Read? && threads[self].pc.Holding?
      modifies this, log
      ensures Valid() && Leads(s, Abs())
      ensures self < |threads| && threads[self].pc.Unlocked?
      ensures threads[self].req == old(threads[self].req) && threads[self].rSeq == old(threads[self].rSeq)
      ensures rec == RecordOf(threads[self])
    {
      ghost var u := Abs();
      var rNum := CountReader(self);
      Pause(self, s, u);
      u := Abs();
      var value := SampleValue(self);
      Pause(self, s, u);
      u := Abs();
      rec := DrawNumber(self);
      Pause(self, s, u);
      u := Abs();
      UncountReader(self);
      Pause(self, s, u);
      u := Abs();
      UnlockRead(self);
      LeadsTrans(s, u, Abs());
    }

    /** A whole write, interrupted anywhere: the register has its value after its number. */
    method WriteValue(self: nat, id: int, rSeq: int, value: int) returns (rec: Record)
      requires Valid() && self < |threads| && threads[self] == Thread(Write(id, value), rSeq, Ready, 0, 0, 0)
      modifies this, log
      ensures Valid() && Leads(old(Abs()), Abs())
      ensures self < |threads| && threads[self].req == Write(id, value) && threads[self].pc.Logged?
      ensures rec == RecordOf(threads[self])
      ensures rec.WriteRecord? && rec.rSeq == rSeq && rec.wId == id && rec.oVal == value
      ensures Recorded(old(Abs()), Abs(), rec)
    {
      hide Step, CanStep, Reachable, Leads, Recorded;
      ghost var s := Abs();
      AwaitLock(self);
      Pause(self, s, Abs()) by { LeadsRefl(Abs()); }
      rec := WriteLocked(self, value, s);
      Pause(self, s, Abs()) by { LeadsRefl(Abs()); }
      ghost var u := Abs();
      AppendRecord(self, rec);
      LeadsTrans(s, u, Abs());
      LoggedIsRecorded(s, Abs(), self);
    }

    /** The part of a write under the lock. */
    method WriteLocked(self: nat, value: int, ghost s: State) returns (rec: Record)
      requires Valid() && self < |threads| && Leads(s, Abs())
      requires threads[self].req.Write? && threads[self].req.value == value && threads[self].pc.Holding?
      modifies this, log
      ensures Valid() && Leads(s, Abs())
      ensures self < |threads| && threads[self].pc.Unlocked?
      ensures threads[self].req == old(threads[self].req) && threads[self].rSeq == old(threads[self].rSeq)
      ensures rec == RecordOf(threads[self]) && threads[self].value == value
    {
      ghost var u := Abs();
      AssignValue(self, value);
      Pause(self, s, u);
      u := Abs();
      rec := DrawNumber(self);
      Pause(self, s, u);
      u := Abs();
      UnlockWrite(self);
      LeadsTrans(s, u, Abs());
    }
  }
}
