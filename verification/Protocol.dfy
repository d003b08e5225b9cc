/**
The bulletin board as a transition system.  A state holds the fields of the
shared object, the fair read-write lock, the log, and one thread per request
that has drawn its `rSeq`.  One step is one line of `readValue` or `writeValue`
executed by one thread; the scheduler picks any thread that can move.
*/
module Protocol {
  import opened Wrappers
  import opened Records

  /** What a thread has done last. */
  datatype Pc =
    | Ready      // rSeq drawn
    | Queued     // waits inside lock()
    | Holding    // lock() returned
    | Counted    // read: rNum drawn from nRead
    | Valued     // read: val sampled; write: val set
    | Drawn      // sSeq drawn, record built
    | Uncounted  // read: nRead decremented
    | Unlocked   // unlock() returned
    | Logged     // record appended to the log
    | Finished   // the call has ended

  function Rank(pc: Pc): nat {
    match pc
    case Ready => 0
    case Queued => 1
    case Holding => 2
    case Counted => 3
    case Valued => 4
    case Drawn => 5
    case Uncounted => 6
    case Unlocked => 7
    case Logged => 8
    case Finished => 9
  }

  /** One request in progress: its argument, its number and its local variables. */
  datatype Thread = Thread(req: Request, rSeq: int, pc: Pc, rNum: int, value: int, sSeq: int)

  /** `ReentrantReadWriteLock(true)`: a FIFO of waiting threads, shared readers, one writer. */
  datatype Lock = Lock(writer: Option<nat>, readers: set<nat>, queue: seq<nat>)

  /** `limit` is the number of requests that will ever be made.  The last two
      fields are history variables: no step reads them. */
  datatype State = State(
    limit: nat,
    val: int, sSeq: int, nRead: int, lock: Lock,
    readLog: seq<Record>, writeLog: seq<Record>,
    threads: seq<Thread>,
    arrivals: seq<nat>,     // threads in the order in which they called lock()
    history: seq<Record>)   // records in the order in which they drew sSeq

  function Init(limit: nat): State {
    State(limit, -1, 1, 0, Lock(None, {}, []), [], [], [], [], [])
  }

  function RecordOf(t: Thread): Record
    requires Touches(t.req)
  {
    match t.req
    case Read(id) => ReadRecord(t.sSeq, t.rSeq, t.value, t.rNum, id)
    case Write(id, _) => WriteRecord(t.sSeq, t.rSeq, t.value, id)
  }

  /** The documented contract of the fair lock: only the longest waiting thread
      is admitted, a reader when no writer holds, a writer when nobody holds. */
  predicate CanAcquire(s: State, i: nat)
    requires i < |s.threads|
  {
    && s.lock.queue != [] && s.lock.queue[0] == i
    && s.lock.writer.None?
    && (s.threads[i].req.Write? ==> s.lock.readers == {})
  }

  predicate CanStep(s: State, i: nat) {
    && i < |s.threads|
    && !s.threads[i].pc.Finished?
    && (s.threads[i].pc.Ready? || Touches(s.threads[i].req))
    && (s.threads[i].pc.Queued? ==> CanAcquire(s, i))
  }

  function Put(s: State, i: nat, t: Thread): State
    requires i < |s.threads|
  {
    s.(threads := s.threads[i := t])
  }

  /** The effect of the next line of thread `i`. */
  function Step(s: State, i: nat): State
    requires CanStep(s, i)
  {
    var t := s.threads[i];
    match t.pc
    case Ready =>
      if Touches(t.req) then
        Put(s, i, t.(pc := Queued))
          .(lock := s.lock.(queue := s.lock.queue + [i]), arrivals := s.arrivals + [i])
      else
        Put(s, i, t.(pc := Finished))
    case Queued =>
      Put(s, i, t.(pc := Holding)).(lock :=
        if t.req.Read? then s.lock.(queue := s.lock.queue[1..], readers := s.lock.readers + {i})
        else s.lock.(queue := s.lock.queue[1..], writer := Some(i)))
    case Holding =>
      if t.req.Read? then
        Put(s, i, t.(pc := Counted, rNum := s.nRead + 1)).(nRead := s.nRead + 1)
      else
        Put(s, i, t.(pc := Valued, value := t.req.value)).(val := t.req.value)
    case Counted =>
      Put(s, i, t.(pc := Valued, value := s.val))
    case Valued =>
      var t' := t.(pc := Drawn, sSeq := s.sSeq);
      Put(s, i, t').(sSeq := s.sSeq + 1, history := s.history + [RecordOf(t')])
    case Drawn =>
      if t.req.Read? then
        Put(s, i, t.(pc := Uncounted)).(nRead := s.nRead - 1)
      else
        Put(s, i, t.(pc := Unlocked)).(lock := s.lock.(writer := None))
    case Uncounted =>
      Put(s, i, t.(pc := Unlocked)).(lock := s.lock.(readers := s.lock.readers - {i}))
    case Unlocked =>
      var s' := Put(s, i, t.(pc := Logged));
      if t.req.Read? then s'.(readLog := s.readLog + [RecordOf(t)])
      else s'.(writeLog := s.writeLog + [RecordOf(t)])
    case Logged =>
      Put(s, i, t.(pc := Finished))
  }

  /** A new request draws the next `rSeq`.  Both servers are proved to keep their
      counter one above the number of requests they have started. */
  function Arrive(s: State, req: Request): State {
    s.(threads := s.threads + [Thread(req, |s.threads| + 1, Ready, 0, 0, 0)])
  }

  datatype Event = Call(req: Request) | Line(thread: nat)

  predicate CanDo(s: State, e: Event) {
    match e
    case Call(_) => |s.threads| < s.limit
    case Line(i) => CanStep(s, i)
  }

  function Do(s: State, e: Event): State
    requires CanDo(s, e)
  {
    match e
    case Call(req) => Arrive(s, req)
    case Line(i) => Step(s, i)
  }

  /** The state after the events `es`, if each was possible in its turn. */
  function Exec(s: State, es: seq<Event>): Option<State> {
    if es == [] then Some(s)
    else
      match Exec(s, es[..|es| - 1])
      case None => None
      case Some(u) => if CanDo(u, es[|es| - 1]) then Some(Do(u, es[|es| - 1])) else None
  }

  /** Every request made so far has ended. */
  predicate Quiet(s: State) {
    forall i :: 0 <= i < |s.threads| ==> s.threads[i].pc.Finished?
  }

  lemma ExecSnoc(s: State, es: seq<Event>, u: State, e: Event)
    requires Exec(s, es) == Some(u) && CanDo(u, e)
    ensures Exec(s, es + [e]) == Some(Do(u, e))
  {
    assert (es + [e])[..|es|] == es;
  }

  lemma {:induction false} ExecConcat(s: State, es: seq<Event>, u: State, fs: seq<Event>)
    requires Exec(s, es) == Some(u)
    ensures Exec(s, es + fs) == Exec(u, fs)
  {
    if fs == [] {
      assert es + fs == es;
    } else {
      var front := fs[..|fs| - 1];
      ExecConcat(s, es, u, front);
      assert (es + fs)[..|es + fs| - 1] == es + front;
    }
  }

  /** Some run leads from `s` to `t`. */
  ghost predicate Leads(s: State, t: State) {
    exists es :: Exec(s, es) == Some(t)
  }

  lemma LeadsRefl(s: State)
    ensures Leads(s, s)
  {
    assert Exec(s, []) == Some(s);
  }

  lemma LeadsStep(s: State, u: State, e: Event)
    requires Leads(s, u) && CanDo(u, e)
    ensures Leads(s, Do(u, e))
  {
    var es :| Exec(s, es) == Some(u);
    ExecSnoc(s, es, u, e);
  }

  lemma LeadsTrans(s: State, u: State, t: State)
    requires Leads(s, u) && Leads(u, t)
    ensures Leads(s, t)
  {
    var es :| Exec(s, es) == Some(u);
    var fs :| Exec(u, fs) == Some(t);
    ExecConcat(s, es, u, fs);
  }
}
