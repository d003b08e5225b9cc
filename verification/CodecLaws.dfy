/** What the servers make of every request line and every remote call, and the record
    constructors of every text. */
module CodecLaws {
  import opened Wrappers
  import opened Records
  import opened Text
  import opened TextLaws
  import opened Codec

  // ---------- request lines ----------

  /** The line starts with the tag and the decimal text of an int, as its first two words. */
  ghost predicate AsksRead(s: string, id: int) {
    exists a :: StartsWith(s, ["R", a]) && ParseInt(a) == Some(id)
  }

  /** The line starts with the tag and the texts of two ints, as its first three words. */
  ghost predicate AsksWrite(s: string, id: int, value: int) {
    exists a, b :: StartsWith(s, ["W", a, b]) && ParseInt(a) == Some(id) && ParseInt(b) == Some(value)
  }

  /** The socket server reads for the lines that ask for it, writes for the lines that ask
      for it, the second number being the value, and throws at every other line. */
  lemma ServeLineExact(s: string, id: int, value: int)
    ensures ServeLine(Some(s)) == Read(id) <==> AsksRead(s, id)
    ensures ServeLine(Some(s)) == Write(id, value) <==> AsksWrite(s, id, value)
    ensures ServeLine(Some(s)).Read? || ServeLine(Some(s)).Write? || ServeLine(Some(s)).Failed?
    ensures ServeLine(None).Failed?
  {
    ReadLineServed(s, id);
    WriteLineServed(s, id, value);
  }

  lemma ReadLineServed(s: string, id: int)
    ensures ServeLine(Some(s)) == Read(id) <==> AsksRead(s, id)
  {
    hide ParseInt, StartsWith, Split;
    var data := Split(s);
    if ServeLine(Some(s)) == Read(id) {
      assert data[..2] == ["R", data[1]];
      assert data[1] != "" by { NotEmpty(data[1]); }
      FirstWords(s, ["R", data[1]]);
    }
    if AsksRead(s, id) {
      var a :| StartsWith(s, ["R", a]) && ParseInt(a) == Some(id);
      NotEmpty(a);
      FirstWords(s, ["R", a]);
      assert data[0] == ["R", a][0] && data[1] == ["R", a][1];
    }
  }

  lemma WriteLineServed(s: string, id: int, value: int)
    ensures ServeLine(Some(s)) == Write(id, value) <==> AsksWrite(s, id, value)
  {
    hide ParseInt, StartsWith, Split;
    var data := Split(s);
    if ServeLine(Some(s)) == Write(id, value) {
      assert data[..3] == ["W", data[1], data[2]];
      assert data[2] != "" by { NotEmpty(data[2]); }
      FirstWords(s, ["W", data[1], data[2]]);
    }
    if AsksWrite(s, id, value) {
      var a, b :| StartsWith(s, ["W", a, b]) && ParseInt(a) == Some(id) && ParseInt(b) == Some(value);
      NotEmpty(b);
      FirstWords(s, ["W", a, b]);
      assert data[0] == ["W", a, b][0] && data[1] == ["W", a, b][1] && data[2] == ["W", a, b][2];
    }
  }

  lemma NotEmpty(s: string)
    ensures ParseInt(s).Some? ==> s != ""
  {
  }

  /** A line of the tag and one or two ints, as any client may send it. */
  lemma PlainLines(id: int, value: int)
    requires Int32(id) && Int32(value)
    ensures ServeLine(Some("R " + PrintInt(id))) == Read(id)
    ensures ServeLine(Some("W " + PrintInt(id) + " " + PrintInt(value))) == Write(id, value)
  {
    hide PrintInt, ParseInt, ServeLine;
    var a, b := PrintInt(id), PrintInt(value);
    PrintIntShape(id);
    PrintIntShape(value);
    PrintIntParses(id);
    PrintIntParses(value);
    JoinTwo("R", a);
    JoinThree("W", a, b);
    assert Continues("R " + a, ["R", a], "");
    assert StartsWith("R " + a, ["R", a]);
    assert Continues("W " + a + " " + b, ["W", a, b], "");
    assert StartsWith("W " + a + " " + b, ["W", a, b]);
    ServeLineExact("R " + a, id, value);
    ServeLineExact("W " + a + " " + b, id, value);
  }

  lemma JoinTwo(a: string, b: string)
    ensures Join([a, b]) == a + " " + b
  {
    assert [a, b][1..] == [b];
  }

  lemma JoinThree(a: string, b: string, c: string)
    ensures Join([a, b, c]) == a + " " + b + " " + c
  {
    assert [a, b, c][1..] == [b, c];
    JoinTwo(b, c);
  }

  // ---------- remote calls ----------

  /** The call reads: its type is "R" and its id is not null. */
  predicate CallReads(call: RemoteCall, id: int) {
    call.requestType == Some("R") && call.id == Some(id)
  }

  /** The call writes: its type is "W" and neither id nor value is null. */
  predicate CallWrites(call: RemoteCall, id: int, value: int) {
    call.requestType == Some("W") && call.id == Some(id) && call.value == Some(value)
  }

  /** The call throws: its type is null, or an argument is null that its type needs. */
  predicate CallThrows(call: RemoteCall) {
    || call.requestType.None?
    || (call.requestType == Some("R") && call.id.None?)
    || (call.requestType == Some("W") && (call.id.None? || call.value.None?))
  }

  /** Which call does what; all others return null and touch nothing. */
  lemma ServeCallExact(call: RemoteCall)
    ensures forall id :: ServeCall(call) == Read(id) <==> CallReads(call, id)
    ensures forall id, value :: ServeCall(call) == Write(id, value) <==> CallWrites(call, id, value)
    ensures ServeCall(call).Failed? <==> CallThrows(call)
    ensures ServeCall(call).Ignored? <==>
              call.requestType.Some? && call.requestType != Some("R") && call.requestType != Some("W")
  {
  }

  // ---------- record texts ----------

  /** The text has at least as many pieces as there are ints, and each of these, trimmed,
      parses to its int; further pieces do not matter. */
  ghost predicate Holds(s: string, xs: seq<int>) {
    |Split(s)| >= |xs| && forall i :: 0 <= i < |xs| ==> ParsesTo(Split(s)[i], xs[i])
  }

  lemma {:induction false} ParseIntsExact(args: seq<string>, n: nat, xs: seq<int>)
    ensures ParseInts(args, n) == Some(xs) <==>
              |xs| == n && |args| >= n && forall i :: 0 <= i < n ==> ParsesTo(args[i], xs[i])
  {
    hide ParseInt, Trim;
    if n > 0 && |args| >= n {
      if |xs| == n {
        ParseIntsExact(args, n - 1, xs[..n - 1]);
        assert xs == xs[..n - 1] + [xs[n - 1]];
      }
      if ParseInts(args, n).Some? {
        ParseIntsExact(args, n - 1, ParseInts(args, n - 1).value);
      }
    }
  }

  /** The record constructors accept exactly the texts whose first pieces are the fields,
      in the order sSeq, rSeq, oVal, then rNum for a read, then the client's id. */
  lemma ParseRecordExact(s: string, r: Record)
    ensures ParseRecord(READ, s) == Some(r) <==>
              r.ReadRecord? && Holds(s, [r.sSeq, r.rSeq, r.oVal, r.rNum, r.rId])
    ensures ParseRecord(WRITE, s) == Some(r) <==>
              r.WriteRecord? && Holds(s, [r.sSeq, r.rSeq, r.oVal, r.wId])
  {
    hide Split, ParseInts, ParsesTo;
    match r
    case ReadRecord(sSeq, rSeq, oVal, rNum, rId) =>
      ReadTextExact(s, sSeq, rSeq, oVal, rNum, rId);
    case WriteRecord(sSeq, rSeq, oVal, wId) =>
      WriteTextExact(s, sSeq, rSeq, oVal, wId);
  }

  lemma ReadTextExact(s: string, sSeq: int, rSeq: int, oVal: int, rNum: int, rId: int)
    ensures ParseRecord(READ, s) == Some(ReadRecord(sSeq, rSeq, oVal, rNum, rId)) <==>
              Holds(s, [sSeq, rSeq, oVal, rNum, rId])
  {
    hide Split, ParseInts, ParsesTo;
    var xs := [sSeq, rSeq, oVal, rNum, rId];
    ParseIntsExact(Split(s), 5, xs);
    if ParseRecord(READ, s) == Some(ReadRecord(sSeq, rSeq, oVal, rNum, rId)) {
      assert ParseInts(Split(s), 5).value == xs;
    }
  }

  lemma WriteTextExact(s: string, sSeq: int, rSeq: int, oVal: int, wId: int)
    ensures ParseRecord(WRITE, s) == Some(WriteRecord(sSeq, rSeq, oVal, wId)) <==>
              Holds(s, [sSeq, rSeq, oVal, wId])
  {
    hide Split, ParseInts, ParsesTo;
    var xs := [sSeq, rSeq, oVal, wId];
    ParseIntsExact(Split(s), 4, xs);
    if ParseRecord(WRITE, s) == Some(WriteRecord(sSeq, rSeq, oVal, wId)) {
      assert ParseInts(Split(s), 4).value == xs;
    }
  }
}
