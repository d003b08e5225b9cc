/** What a reader of `server_log.txt` can conclude. */
module Publication {
  import opened Records
  import opened Protocol
  import opened Invariants
  import opened Theorems
  import opened Progress
  import opened Text
  import opened Codec
  import opened Logs

  /** The two lists hold the records of the history, each in the list of its kind. */
  ghost predicate Tabled(t: State) {
    && AllReads(t.readLog) && AllWrites(t.writeLog) && Numbered(t.history)
    && forall r :: r in t.readLog || r in t.writeLog <==> r in t.history
  }

  lemma LogsFit(t: State)
    requires Reachable(t) && Settled(t.threads) && RequestsInRange(t.threads) && t.limit < INT_MAX
    ensures Tabled(t)
  {
    ReachableLog(t);
    CountersFit(t);
    forall i | 0 <= i < |t.readLog| ensures AllInt32(Fields(t.readLog[i])) {
      assert t.readLog[i] in t.history;
    }
    forall i | 0 <= i < |t.writeLog| ensures AllInt32(Fields(t.writeLog[i])) {
      assert t.writeLog[i] in t.history;
    }
  }

  lemma ReachableLog(t: State)
    requires Reachable(t) && Settled(t.threads)
    ensures Sorts(t.readLog, t.writeLog) && Numbered(t.history)
    ensures forall r :: r in t.readLog || r in t.writeLog <==> r in t.history
  {
    ReachableInv(t);
    SettledLog(t);
    HistoryNumbered(t);
    forall r ensures r in t.readLog || r in t.writeLog <==> r in t.history {
      assert r in LogBag(t) <==> r in multiset(t.history);
    }
  }

  ghost predicate SameColumns(p: seq<Record>, q: seq<Record>) {
    |p| == |q| && forall i :: 0 <= i < |p| ==> ServerColumns(p[i]) == ServerColumns(q[i])
  }

  /** The record in the same row of a table with the same columns. */
  lemma Counterpart(p: seq<Record>, q: seq<Record>, r: Record) returns (s: Record)
    requires (AllReads(p) && AllReads(q)) || (AllWrites(p) && AllWrites(q))
    requires SameColumns(p, q) && r in p
    ensures s in q && ServerColumns(s) == ServerColumns(r) && KindOf(s) == KindOf(r)
  {
    var i :| 0 <= i < |p| && p[i] == r;
    s := q[i];
  }

  /** Two records that show the same in all published columns: sSeq, oVal, the client's
      id and, for reads, rNum. */
  predicate SameRow(r: Record, s: Record) {
    KindOf(r) == KindOf(s) && ServerColumns(r) == ServerColumns(s)
  }

  lemma SameOperation(t: State, u: State, k: nat)
    requires Tabled(t) && Tabled(u) && SameColumns(t.readLog, u.readLog) && SameColumns(t.writeLog, u.writeLog)
    requires k < |t.history|
    ensures k < |u.history| && SameRow(t.history[k], u.history[k])
  {
    var r := t.history[k];
    assert r in t.history;
    var s: Record;
    if r in t.readLog {
      s := Counterpart(t.readLog, u.readLog, r);
    } else {
      s := Counterpart(t.writeLog, u.writeLog, r);
    }
    assert s.sSeq == ServerColumns(s)[0] == r.sSeq == k + 1;
    assert s in u.history;
  }

  /** Two runs that publish the same complete log have histories of the same length that
      agree, place by place, in every published column: the same operations, numbers,
      values, ids and reader counts, whatever the order in which the records reached the
      log. */
  lemma FileDeterminesHistory(t: State, u: State)
    requires Reachable(t) && Settled(t.threads) && RequestsInRange(t.threads) && t.limit < INT_MAX
    requires Reachable(u) && Settled(u.threads) && RequestsInRange(u.threads) && u.limit < INT_MAX
    requires ServerLog(t.readLog, t.writeLog) == ServerLog(u.readLog, u.writeLog)
    ensures |t.history| == |u.history|
    ensures forall k :: 0 <= k < |t.history| ==> SameRow(t.history[k], u.history[k])
  {
    hide Reachable, ServerLog, Settled, RequestsInRange, SameRow, Fields;
    LogsFit(t);
    LogsFit(u);
    ServerLogDetermines(t.readLog, t.writeLog, u.readLog, u.writeLog);
    forall k: nat | k < |t.history| ensures k < |u.history| && SameRow(t.history[k], u.history[k]) {
      SameOperation(t, u, k);
    }
    if |t.history| < |u.history| {
      SameOperation(u, t, |t.history|);
    }
    if |u.history| < |t.history| {
      SameOperation(t, u, |u.history|);
    }
  }
}
