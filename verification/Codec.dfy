/** The texts that cross the network: printed records and request lines. */
module Codec {
  import opened Wrappers
  import opened Records
  import opened Text

  // ---------- a line of ints ----------

  function Cells(xs: seq<int>): seq<string> {
    seq(|xs|, i requires 0 <= i < |xs| => PrintInt(xs[i]))
  }

  function PrintInts(xs: seq<int>): string
    requires xs != []
  {
    Join(Cells(xs)) + "\n"
  }

  /** The first `n` fields of a line, each trimmed and parsed; None where the source throws. */
  function ParseInts(args: seq<string>, n: nat): Option<seq<int>> {
    if n == 0 then Some([])
    else if |args| < n then None
    else
      match (ParseInts(args, n - 1), ParseInt(Trim(args[n - 1])))
      case (Some(xs), Some(x)) => Some(xs + [x])
      case _ => None
  }

  predicate AllInt32(xs: seq<int>) {
    forall i :: 0 <= i < |xs| ==> Int32(xs[i])
  }

  /** A printed int, possibly with the line feed that ends the record. */
  ghost predicate IsCell(arg: string, x: int) {
    arg == PrintInt(x) || arg == PrintInt(x) + "\n"
  }

  lemma CellShape(arg: string, x: int)
    requires Int32(x) && IsCell(arg, x)
    ensures ' ' !in arg && arg != "" && ParseInt(Trim(arg)) == Some(x)
  {
    hide PrintInt, ParseInt, Trim;
    PrintIntShape(x);
    PrintIntParses(x);
    var end := if arg == PrintInt(x) then "" else "\n";
    TrimBlanks("", PrintInt(x), end);
    assert arg == "" + PrintInt(x) + end;
  }

  ghost predicate AreCells(args: seq<string>, xs: seq<int>) {
    |args| == |xs| && forall i :: 0 <= i < |xs| ==> IsCell(args[i], xs[i])
  }

  ghost predicate ParsesTo(arg: string, x: int) {
    ParseInt(Trim(arg)) == Some(x)
  }

  lemma {:induction false} ParseOfCells(xs: seq<int>, args: seq<string>, n: nat)
    requires n <= |xs| == |args|
    requires forall i :: 0 <= i < n ==> ParsesTo(args[i], xs[i])
    ensures ParseInts(args, n) == Some(xs[..n])
  {
    if n > 0 {
      ParseOfCells(xs, args, n - 1);
      assert ParsesTo(args[n - 1], xs[n - 1]);
      assert xs[..n] == xs[..n - 1] + [xs[n - 1]];
    }
  }

  lemma LineOfCells(xs: seq<int>, args: seq<string>)
    requires xs != [] && AllInt32(xs) && AreCells(args, xs)
    ensures Split(Join(args)) == args && ParseInts(args, |xs|) == Some(xs)
  {
    forall i | 0 <= i < |args| ensures ' ' !in args[i] && args[i] != "" && ParsesTo(args[i], xs[i]) {
      CellShape(args[i], xs[i]);
    }
    SplitOfJoin(args);
    ParseOfCells(xs, args, |xs|);
    assert xs[..|xs|] == xs;
  }

  lemma {:induction false} JoinEnds(ps: seq<string>, end: string)
    requires ps != []
    ensures Join(ps) + end == Join(ps[..|ps| - 1] + [ps[|ps| - 1] + end])
  {
    var qs := ps[..|ps| - 1] + [ps[|ps| - 1] + end];
    if |ps| > 1 {
      JoinEnds(ps[1..], end);
      assert qs[1..] == ps[1..][..|ps| - 2] + [ps[|ps| - 1] + end];
    }
  }

  /** A printed line of ints parses to these ints, with the line feed (as RMI returns
      it) and without (as readLine returns it). */
  lemma {:induction false} IntsRoundTrip(xs: seq<int>)
    requires xs != [] && AllInt32(xs)
    ensures ParseInts(Split(PrintInts(xs)), |xs|) == Some(xs)
    ensures ParseInts(Split(Join(Cells(xs))), |xs|) == Some(xs)
  {
    hide Join, Split, ParseInts, PrintInt;
    var ps, n := Cells(xs), |xs|;
    LineOfCells(xs, ps);
    JoinEnds(ps, "\n");
    LineOfCells(xs, ps[..n - 1] + [ps[n - 1] + "\n"]);
  }

  lemma {:induction false} JoinedCellsHaveNoBreak(xs: seq<int>)
    requires xs != [] && AllInt32(xs)
    ensures Join(Cells(xs)) != ""
    ensures forall c :: c in Join(Cells(xs)) ==> c != '\n' && c != '\r'
  {
    PrintIntShape(xs[0]);
    if |xs| > 1 {
      assert Cells(xs)[1..] == Cells(xs[1..]);
      JoinedCellsHaveNoBreak(xs[1..]);
    }
  }

  // ---------- records ----------

  /** The fields of a record in the order in which `toString` prints them. */
  function Fields(r: Record): seq<int> {
    match r
    case ReadRecord(sSeq, rSeq, oVal, rNum, rId) => [sSeq, rSeq, oVal, rNum, rId]
    case WriteRecord(sSeq, rSeq, oVal, wId) => [sSeq, rSeq, oVal, wId]
  }

  /** `toString` of the two record classes, append by append. */
  function PrintRecord(r: Record): string {
    match r
    case ReadRecord(sSeq, rSeq, oVal, rNum, rId) =>
      PrintInt(sSeq) + " " + PrintInt(rSeq) + " " + PrintInt(oVal) + " " + PrintInt(rNum) + " " + PrintInt(rId) + "\n"
    case WriteRecord(sSeq, rSeq, oVal, wId) =>
      PrintInt(sSeq) + " " + PrintInt(rSeq) + " " + PrintInt(oVal) + " " + PrintInt(wId) + "\n"
  }

  lemma JoinFour(a: string, b: string, c: string, d: string)
    ensures Join([a, b, c, d]) == a + " " + b + " " + c + " " + d
  {
    var all := [a, b, c, d];
    assert all[1..] == [b, c, d] && [b, c, d][1..] == [c, d] && [c, d][1..] == [d];
    assert Join([d]) == d && Join([c, d]) == c + " " + d && Join([b, c, d]) == b + " " + Join([c, d]);
    assert Join(all) == a + " " + Join([b, c, d]);
  }

  lemma JoinFive(a: string, b: string, c: string, d: string, e: string)
    ensures Join([a, b, c, d, e]) == a + " " + b + " " + c + " " + d + " " + e
  {
    JoinFour(b, c, d, e);
    assert [a, b, c, d, e][1..] == [b, c, d, e];
    assert Join([a, b, c, d, e]) == a + " " + Join([b, c, d, e]);
  }

  lemma PrintRecordIsInts(r: Record)
    ensures PrintRecord(r) == PrintInts(Fields(r))
  {
    hide PrintInt, Join;
    match r
    case ReadRecord(sSeq, rSeq, oVal, rNum, rId) =>
      assert Cells(Fields(r)) == [PrintInt(sSeq), PrintInt(rSeq), PrintInt(oVal), PrintInt(rNum), PrintInt(rId)];
      JoinFive(PrintInt(sSeq), PrintInt(rSeq), PrintInt(oVal), PrintInt(rNum), PrintInt(rId));
    case WriteRecord(sSeq, rSeq, oVal, wId) =>
      assert Cells(Fields(r)) == [PrintInt(sSeq), PrintInt(rSeq), PrintInt(oVal), PrintInt(wId)];
      JoinFour(PrintInt(sSeq), PrintInt(rSeq), PrintInt(oVal), PrintInt(wId));
  }

  datatype RequestType = READ | WRITE

  /** The constructors `ReadRecord(String)` and `WriteRecord(String)`. */
  function ParseRecord(kind: RequestType, s: string): Option<Record> {
    match kind
    case READ =>
      (match ParseInts(Split(s), 5)
       case None => None
       case Some(xs) => if |xs| == 5 then Some(ReadRecord(xs[0], xs[1], xs[2], xs[3], xs[4])) else None)
    case WRITE =>
      (match ParseInts(Split(s), 4)
       case None => None
       case Some(xs) => if |xs| == 4 then Some(WriteRecord(xs[0], xs[1], xs[2], xs[3])) else None)
  }

  function KindOf(r: Record): RequestType {
    if r.ReadRecord? then READ else WRITE
  }

  /** Record round trip over all 32-bit fields.  Over a socket the server prints the
      record with `println`, and the client parses the first line of what arrives. */
  lemma {:induction false} RecordRoundTrip(r: Record)
    requires AllInt32(Fields(r))
    ensures ParseRecord(KindOf(r), PrintRecord(r)) == Some(r)
    ensures ReadLine(PrintRecord(r) + "\n").Some?
    ensures ParseRecord(KindOf(r), ReadLine(PrintRecord(r) + "\n").value) == Some(r)
  {
    hide Join, Split, ParseInts, FirstLine, PrintInt, PrintRecord;
    var xs := Fields(r);
    PrintRecordIsInts(r);
    IntsRoundTrip(xs);
    JoinedCellsHaveNoBreak(xs);
    FirstLineOf(Join(Cells(xs)), "\n" + "\n");
    assert PrintRecord(r) + "\n" == Join(Cells(xs)) + ("\n" + "\n");
  }

  // ---------- requests ----------

  /** `RequestType.toString` */
  function Tag(kind: RequestType): string {
    match kind
    case READ => "R"
    case WRITE => "W"
  }

  /** `RequestType.toRequestType` */
  function ToRequestType(s: string): Option<RequestType> {
    if s == "R" then Some(READ) else if s == "W" then Some(WRITE) else None
  }

  /** `generate_request_message` of the two socket workers. */
  function RequestMessage(kind: RequestType, id: string): string {
    match kind
    case READ => Tag(READ) + " " + id
    case WRITE => Tag(WRITE) + " " + id + " " + id
  }

  /** What the socket server's `ClientWorker.run` makes of the line it read; `Failed`
      where the source throws before it reaches the shared object. */
  function ServeLine(line: Option<string>): Request {
    match line
    case None => Failed
    case Some(s) =>
      var data := Split(s);
      if |data| < 2 || ParseInt(data[1]).None? then Failed
      else
        var id := ParseInt(data[1]).value;
        match ToRequestType(data[0])
        case Some(WRITE) =>
          if |data| < 3 || ParseInt(data[2]).None? then Failed else Write(id, ParseInt(data[2]).value)
        case Some(READ) => Read(id)
        case None => Failed
  }

  /** A remote call's arguments; None is Java's null. */
  datatype RemoteCall = RemoteCall(id: Option<int>, requestType: Option<string>, value: Option<int>)

  /** What `executeTask` does with them: an unknown type is ignored, a null that is
      used throws before the semaphore is released. */
  function ServeCall(call: RemoteCall): Request {
    match call.requestType
    case None => Failed
    case Some(s) =>
      match ToRequestType(s)
      case None => Ignored
      case Some(READ) => if call.id.Some? then Read(call.id.value) else Failed
      case Some(WRITE) =>
        if call.id.Some? && call.value.Some? then Write(call.id.value, call.value.value) else Failed
  }

  /** What a client of this kind and id asks for: a writer writes its own id. */
  function ClientRequest(kind: RequestType, id: int): Request {
    match kind
    case READ => Read(id)
    case WRITE => Write(id, id)
  }

  /** The request's arguments are Java ints. */
  predicate InRange(req: Request) {
    match req
    case Read(id) => Int32(id)
    case Write(id, value) => Int32(id) && Int32(value)
    case _ => true
  }

  lemma MessageSplits(kind: RequestType, id: int)
    requires Int32(id)
    ensures Split(RequestMessage(kind, PrintInt(id))) ==
            if kind == READ then ["R", PrintInt(id)] else ["W", PrintInt(id), PrintInt(id)]
  {
    var p := PrintInt(id);
    CellShape(p, id);
    assert Join([p]) == p;
    assert Join([p, p]) == p + " " + p by { assert [p, p][1..] == [p]; }
    if kind == READ {
      assert ["R", p][1..] == [p];
      SplitOfJoin(["R", p]);
    } else {
      assert ["W", p, p][1..] == [p, p];
      assert "W" + " " + (p + " " + p) == "W" + " " + p + " " + p;
      SplitOfJoin(["W", p, p]);
    }
  }

  lemma MessageIsOneLine(kind: RequestType, id: int)
    requires Int32(id)
    ensures ReadLine(RequestMessage(kind, PrintInt(id)) + "\n") == Some(RequestMessage(kind, PrintInt(id)))
  {
    PrintIntShape(id);
    FirstLineOf(RequestMessage(kind, PrintInt(id)), "\n");
  }

  /** Request round trip: for every 32-bit id the server recovers type and id from the
      client's line (sent with `println`), and the value written is the id. */
  lemma RequestRoundTrip(kind: RequestType, id: int)
    requires Int32(id)
    ensures ServeLine(ReadLine(RequestMessage(kind, PrintInt(id)) + "\n")) == ClientRequest(kind, id)
    ensures ServeCall(RemoteCall(Some(id), Some(Tag(kind)), Some(id))) == ClientRequest(kind, id)
  {
    MessageIsOneLine(kind, id);
    MessageSplits(kind, id);
    PrintIntParses(id);
  }
}
