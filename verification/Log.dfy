/** The log of records and the tables it is published as. */
module Logs {
  import opened Wrappers
  import opened Records
  import opened Text
  import opened Codec

  // ---------- table rows ----------

  function Blanks(n: nat): string {
    seq(n, i => ' ')
  }

  /** `%20s` */
  function Pad(s: string): string {
    if |s| < 20 then Blanks(20 - |s|) + s else s
  }

  function PadAll(cells: seq<string>): seq<string> {
    seq(|cells|, i requires 0 <= i < |cells| => Pad(cells[i]))
  }

  /** One formatted row: the padded cells, a space between two of them. */
  function TextRow(cells: seq<string>): string
    requires cells != []
  {
    Join(PadAll(cells))
  }

  function Row(xs: seq<int>): string
    requires xs != []
  {
    TextRow(Cells(xs))
  }

  lemma PadShape(x: int)
    requires Int32(x)
    ensures |Pad(PrintInt(x))| == 20 && ParsesTo(Pad(PrintInt(x)), x)
  {
    var s := PrintInt(x);
    hide PrintInt, ParseInt, Trim;
    PrintIntShape(x);
    PrintIntParses(x);
    TrimBlanks(Blanks(20 - |s|), s, "");
    assert Pad(s) == Blanks(20 - |s|) + s + "";
  }

  /** The text stands at the right end of a cell of twenty characters. */
  predicate RightAligned(cell: string, text: string) {
    && |text| <= |cell| == 20 && cell[20 - |text|..] == text
    && forall i :: 0 <= i < 20 - |text| ==> cell[i] == ' '
  }

  /** The line consists of these texts in right-aligned columns, a space between two. */
  ghost predicate Titles(line: string, texts: seq<string>) {
    && |line| == 21 * |texts| - 1
    && (forall j :: 0 <= j < |texts| ==> RightAligned(line[21 * j..21 * j + 20], texts[j]))
    && (forall j :: 1 <= j < |texts| ==> line[21 * j - 1] == ' ')
  }

  /** The line consists of these ints in right-aligned columns. */
  ghost predicate Shows(line: string, xs: seq<int>) {
    && Titles(line, Cells(xs))
    && forall j :: 0 <= j < |xs| ==> ParsesTo(line[21 * j..21 * j + 20], xs[j])
  }

  lemma PadAligns(text: string)
    requires |text| <= 20
    ensures RightAligned(Pad(text), text)
  {
    assert Pad(text) == Blanks(20 - |text|) + text;
  }

  lemma TitlesCons(p: string, row: string, text: string, texts: seq<string>)
    requires RightAligned(p, text) && texts != [] && Titles(row, texts)
    ensures Titles(p + " " + row, [text] + texts)
  {
    var line, all := p + " " + row, [text] + texts;
    forall j | 0 <= j < |all|
      ensures RightAligned(line[21 * j..21 * j + 20], all[j]) && (j > 0 ==> line[21 * j - 1] == ' ')
    {
      if j == 0 {
        assert line[0..20] == p;
      } else {
        var k := j - 1;
        assert line[21 * j..21 * j + 20] == row[21 * k..21 * k + 20];
        assert k > 0 ==> line[21 * j - 1] == row[21 * k - 1];
      }
    }
  }

  lemma {:induction false} TextRowAligns(texts: seq<string>)
    requires texts != [] && forall j :: 0 <= j < |texts| ==> |texts[j]| <= 20
    ensures Titles(TextRow(texts), texts)
  {
    hide Pad, RightAligned;
    var p := Pad(texts[0]);
    PadAligns(texts[0]);
    if |texts| > 1 {
      hide Titles;
      var rest := texts[1..];
      assert PadAll(texts)[1..] == PadAll(rest);
      TextRowAligns(rest);
      TitlesCons(p, TextRow(rest), texts[0], rest);
      assert texts == [texts[0]] + rest;
    } else {
      OneTitle(p, texts[0]);
      assert texts == [texts[0]];
    }
  }

  lemma OneTitle(p: string, text: string)
    requires RightAligned(p, text)
    ensures Titles(p, [text])
  {
    assert p[0..20] == p;
  }

  lemma RowShows(xs: seq<int>)
    requires xs != [] && AllInt32(xs)
    ensures Shows(Row(xs), xs)
  {
    hide Titles, Pad, ParsesTo, PrintInt;
    forall j | 0 <= j < |xs| ensures |Cells(xs)[j]| <= 20 {
      PrintIntShape(xs[j]);
    }
    TextRowAligns(Cells(xs));
    RowShape(xs);
  }

  /** Columns never merge: a row of n ints has 21n - 1 characters, and the 20
      characters of each column, trimmed and parsed, give back its int. */
  lemma {:induction false} RowShape(xs: seq<int>)
    requires xs != [] && AllInt32(xs)
    ensures |Row(xs)| == 21 * |xs| - 1
    ensures forall j :: 0 <= j < |xs| ==> ParsesTo(Row(xs)[21 * j..21 * j + 20], xs[j])
  {
    var p, row := Pad(PrintInt(xs[0])), Row(xs);
    PadShape(xs[0]);
    if |xs| > 1 {
      var rest := xs[1..];
      assert PadAll(Cells(xs))[1..] == PadAll(Cells(rest));
      assert row == p + " " + Row(rest);
      RowShape(rest);
      forall j | 0 <= j < |xs| ensures ParsesTo(row[21 * j..21 * j + 20], xs[j]) {
        if j == 0 {
          assert row[0..20] == p;
        } else {
          assert row[21 * j..21 * j + 20] == Row(rest)[21 * (j - 1)..21 * (j - 1) + 20];
        }
      }
    } else {
      assert row == p && row[0..20] == p;
    }
  }

  lemma RowInjective(xs: seq<int>, ys: seq<int>)
    requires xs != [] && ys != [] && AllInt32(xs) && AllInt32(ys) && Row(xs) == Row(ys)
    ensures xs == ys
  {
    RowShape(xs);
    RowShape(ys);
    forall j | 0 <= j < |xs| ensures xs[j] == ys[j] {
      assert ParsesTo(Row(xs)[21 * j..21 * j + 20], xs[j]) && ParsesTo(Row(ys)[21 * j..21 * j + 20], ys[j]);
    }
  }

  // ---------- tables ----------

  function ServerColumns(r: Record): seq<int> {
    match r
    case ReadRecord(sSeq, _, oVal, rNum, rId) => [sSeq, oVal, rId, rNum]
    case WriteRecord(sSeq, _, oVal, wId) => [sSeq, oVal, wId]
  }

  function ReaderColumns(r: Record): seq<int> {
    [r.rSeq, r.sSeq, r.oVal]
  }

  function WriterColumns(r: Record): seq<int> {
    [r.rSeq, r.sSeq]
  }

  function ServerTable(recs: seq<Record>): seq<string> {
    seq(|recs|, i requires 0 <= i < |recs| => Row(ServerColumns(recs[i])))
  }

  function ReaderTable(recs: seq<Record>): seq<string> {
    seq(|recs|, i requires 0 <= i < |recs| => Row(ReaderColumns(recs[i])))
  }

  function WriterTable(recs: seq<Record>): seq<string> {
    seq(|recs|, i requires 0 <= i < |recs| => Row(WriterColumns(recs[i])))
  }

  const READERS_HEAD: seq<string> :=
    ["Readers:", "--------", TextRow(["sSeq", "oVal", "rID", "rNum"])]
  const WRITERS_HEAD: seq<string> :=
    ["", "Writers:", "--------", TextRow(["sSeq", "oVal", "wID"])]

  /** The lines of `server_log.txt`. */
  function ServerLog(rs: seq<Record>, ws: seq<Record>): seq<string> {
    READERS_HEAD + ServerTable(rs) + WRITERS_HEAD + ServerTable(ws)
  }

  /** The lines of a reader's file. */
  function ReaderFile(id: string, rs: seq<Record>): seq<string> {
    ["Client type : Reader", "Client Name : " + id, TextRow(["rSeq", "sSeq", "oVal"])] + ReaderTable(rs)
  }

  /** The lines of a writer's file. */
  function WriterFile(id: string, ws: seq<Record>): seq<string> {
    ["Client type : Writer", "Client Name : " + id, TextRow(["rSeq", "sSeq"])] + WriterTable(ws)
  }

  predicate AllReads(recs: seq<Record>) {
    forall i :: 0 <= i < |recs| ==> recs[i].ReadRecord? && AllInt32(Fields(recs[i]))
  }

  predicate AllWrites(recs: seq<Record>) {
    forall i :: 0 <= i < |recs| ==> recs[i].WriteRecord? && AllInt32(Fields(recs[i]))
  }

  lemma ServerRowShape(r: Record)
    requires AllInt32(Fields(r))
    ensures AllInt32(ServerColumns(r)) && |Row(ServerColumns(r))| == if r.ReadRecord? then 83 else 62
    ensures AllInt32(ReaderColumns(r)) && |Row(ReaderColumns(r))| == 62
    ensures AllInt32(WriterColumns(r)) && |Row(WriterColumns(r))| == 41
  {
    var xs := Fields(r);
    assert Int32(xs[0]) && Int32(xs[1]) && Int32(xs[2]) && Int32(xs[3]) && (r.ReadRecord? ==> Int32(xs[4]));
    RowShape(ServerColumns(r));
    RowShape(ReaderColumns(r));
    RowShape(WriterColumns(r));
  }

  /** Which column of a server row shows which field. */
  lemma ServerRowCells(r: Record)
    requires AllInt32(Fields(r))
    ensures |Row(ServerColumns(r))| >= 62 && ParsesTo(Row(ServerColumns(r))[..20], r.sSeq)
    ensures ParsesTo(Row(ServerColumns(r))[21..41], r.oVal)
    ensures ParsesTo(Row(ServerColumns(r))[42..62], if r.ReadRecord? then r.rId else r.wId)
    ensures r.ReadRecord? ==> |Row(ServerColumns(r))| == 83 && ParsesTo(Row(ServerColumns(r))[63..83], r.rNum)
  {
    hide Row, ParsesTo;
    ServerRowShape(r);
    var xs, row := ServerColumns(r), Row(ServerColumns(r));
    RowShape(xs);
    assert ParsesTo(row[21 * 0..21 * 0 + 20], xs[0]) && ParsesTo(row[21 * 1..21 * 1 + 20], xs[1]);
    assert ParsesTo(row[21 * 2..21 * 2 + 20], xs[2]);
    assert row[0..20] == row[..20];
    assert r.ReadRecord? ==> ParsesTo(row[21 * 3..21 * 3 + 20], xs[3]);
  }

  lemma TableInjective(p: seq<Record>, q: seq<Record>)
    requires (AllReads(p) && AllReads(q)) || (AllWrites(p) && AllWrites(q))
    requires ServerTable(p) == ServerTable(q)
    ensures |p| == |q| && forall i :: 0 <= i < |p| ==> ServerColumns(p[i]) == ServerColumns(q[i])
  {
    assert |ServerTable(p)| == |p| && |ServerTable(q)| == |q|;
    forall i | 0 <= i < |p| ensures ServerColumns(p[i]) == ServerColumns(q[i]) {
      ServerRowShape(p[i]);
      ServerRowShape(q[i]);
      assert ServerTable(p)[i] == ServerTable(q)[i];
      RowInjective(ServerColumns(p[i]), ServerColumns(q[i]));
    }
  }

  /** The first blank line of the file ends the readers' table, so it tells how many reads there are. */
  lemma BlankLine(rs: seq<Record>, ws: seq<Record>)
    requires AllReads(rs)
    ensures |ServerLog(rs, ws)| == |rs| + |ws| + 7
    ensures ServerLog(rs, ws)[3 + |rs|] == ""
    ensures forall i :: 3 <= i < 3 + |rs| ==> ServerLog(rs, ws)[i] != ""
    ensures ServerLog(rs, ws)[3..3 + |rs|] == ServerTable(rs)
    ensures ServerLog(rs, ws)[7 + |rs|..] == ServerTable(ws)
  {
    forall i | 0 <= i < |rs| ensures ServerTable(rs)[i] != "" {
      ServerRowShape(rs[i]);
    }
    forall i | 3 <= i < 3 + |rs| ensures ServerLog(rs, ws)[i] != "" {
      assert ServerLog(rs, ws)[i] == ServerTable(rs)[i - 3];
    }
  }

  /** The published file determines every published column of every record, in log order. */
  lemma ServerLogDetermines(r1: seq<Record>, w1: seq<Record>, r2: seq<Record>, w2: seq<Record>)
    requires AllReads(r1) && AllReads(r2) && AllWrites(w1) && AllWrites(w2)
    requires ServerLog(r1, w1) == ServerLog(r2, w2)
    ensures |r1| == |r2| && forall i :: 0 <= i < |r1| ==> ServerColumns(r1[i]) == ServerColumns(r2[i])
    ensures |w1| == |w2| && forall i :: 0 <= i < |w1| ==> ServerColumns(w1[i]) == ServerColumns(w2[i])
  {
    BlankLine(r1, w1);
    BlankLine(r2, w2);
    assert |r1| == |r2|;
    TableInjective(r1, r2);
    TableInjective(w1, w2);
  }

  // ---------- the files, line by line ----------

  /** `server_log.txt`: the readers' table, an empty line, the writers' table; each row
      shows its record's fields in the order of the titles above it. */
  ghost predicate IsServerFile(lines: seq<string>, rs: seq<Record>, ws: seq<Record>)
    requires AllReads(rs) && AllWrites(ws)
  {
    && |lines| == |rs| + |ws| + 7
    && lines[0] == "Readers:" && lines[1] == "--------" && Titles(lines[2], ["sSeq", "oVal", "rID", "rNum"])
    && (forall i :: 0 <= i < |rs| ==> Shows(lines[3 + i], [rs[i].sSeq, rs[i].oVal, rs[i].rId, rs[i].rNum]))
    && lines[3 + |rs|] == "" && lines[4 + |rs|] == "Writers:" && lines[5 + |rs|] == "--------"
    && Titles(lines[6 + |rs|], ["sSeq", "oVal", "wID"])
    && (forall i :: 0 <= i < |ws| ==> Shows(lines[7 + |rs| + i], [ws[i].sSeq, ws[i].oVal, ws[i].wId]))
  }

  /** A reader's file. */
  ghost predicate IsReaderFile(lines: seq<string>, id: string, rs: seq<Record>) {
    && |lines| == |rs| + 3
    && lines[0] == "Client type : Reader" && lines[1] == "Client Name : " + id
    && Titles(lines[2], ["rSeq", "sSeq", "oVal"])
    && forall i :: 0 <= i < |rs| ==> Shows(lines[3 + i], [rs[i].rSeq, rs[i].sSeq, rs[i].oVal])
  }

  /** A writer's file. */
  ghost predicate IsWriterFile(lines: seq<string>, id: string, ws: seq<Record>) {
    && |lines| == |ws| + 3
    && lines[0] == "Client type : Writer" && lines[1] == "Client Name : " + id
    && Titles(lines[2], ["rSeq", "sSeq"])
    && forall i :: 0 <= i < |ws| ==> Shows(lines[3 + i], [ws[i].rSeq, ws[i].sSeq])
  }

  lemma RecordRows(r: Record)
    requires AllInt32(Fields(r))
    ensures r.ReadRecord? ==> Shows(Row(ServerColumns(r)), [r.sSeq, r.oVal, r.rId, r.rNum])
    ensures r.WriteRecord? ==> Shows(Row(ServerColumns(r)), [r.sSeq, r.oVal, r.wId])
    ensures Shows(Row(ReaderColumns(r)), [r.rSeq, r.sSeq, r.oVal])
    ensures Shows(Row(WriterColumns(r)), [r.rSeq, r.sSeq])
  {
    hide Row, Shows;
    ServerRowShape(r);
    RowShows(ServerColumns(r));
    RowShows(ReaderColumns(r));
    RowShows(WriterColumns(r));
  }

  lemma ServerFileLines(rs: seq<Record>, ws: seq<Record>)
    requires AllReads(rs) && AllWrites(ws)
    ensures IsServerFile(ServerLog(rs, ws), rs, ws)
  {
    hide Row, Shows, Titles, TextRow;
    TextRowAligns(["sSeq", "oVal", "rID", "rNum"]);
    TextRowAligns(["sSeq", "oVal", "wID"]);
    var lines := ServerLog(rs, ws);
    forall i | 0 <= i < |rs| ensures Shows(lines[3 + i], [rs[i].sSeq, rs[i].oVal, rs[i].rId, rs[i].rNum]) {
      RecordRows(rs[i]);
      assert lines[3 + i] == Row(ServerColumns(rs[i]));
    }
    forall i | 0 <= i < |ws| ensures Shows(lines[7 + |rs| + i], [ws[i].sSeq, ws[i].oVal, ws[i].wId]) {
      RecordRows(ws[i]);
      assert lines[7 + |rs| + i] == Row(ServerColumns(ws[i]));
    }
  }

  lemma ReaderFileLines(id: string, rs: seq<Record>)
    requires AllReads(rs)
    ensures IsReaderFile(ReaderFile(id, rs), id, rs)
  {
    hide Row, Shows, Titles, TextRow;
    TextRowAligns(["rSeq", "sSeq", "oVal"]);
    var lines := ReaderFile(id, rs);
    forall i | 0 <= i < |rs| ensures Shows(lines[3 + i], [rs[i].rSeq, rs[i].sSeq, rs[i].oVal]) {
      RecordRows(rs[i]);
      assert lines[3 + i] == Row(ReaderColumns(rs[i]));
    }
  }

  lemma WriterFileLines(id: string, ws: seq<Record>)
    requires AllWrites(ws)
    ensures IsWriterFile(WriterFile(id, ws), id, ws)
  {
    hide Row, Shows, Titles, TextRow;
    TextRowAligns(["rSeq", "sSeq"]);
    var lines := WriterFile(id, ws);
    forall i | 0 <= i < |ws| ensures Shows(lines[3 + i], [ws[i].rSeq, ws[i].sSeq]) {
      RecordRows(ws[i]);
      assert lines[3 + i] == Row(WriterColumns(ws[i]));
    }
  }

  /** What `Shows` says of a row of three ints, cell by cell. */
  lemma ThreeCells(line: string, x: int, y: int, z: int)
    requires Shows(line, [x, y, z])
    ensures |line| == 62 && ParsesTo(line[..20], x) && ParsesTo(line[21..41], y) && ParsesTo(line[42..62], z)
  {
    hide ParsesTo;
    var xs := [x, y, z];
    assert ParsesTo(line[21 * 0..21 * 0 + 20], xs[0]) && ParsesTo(line[21 * 1..21 * 1 + 20], xs[1]);
    assert ParsesTo(line[21 * 2..21 * 2 + 20], xs[2]);
    assert line[0..20] == line[..20];
  }

  /** The file a client's log goes to. */
  function LogFileName(id: string): string {
    "log" + id + ".txt"
  }

  lemma LogFileNames(id1: int, id2: int)
    requires Int32(id1) && Int32(id2)
    ensures
      var name := LogFileName(PrintInt(id1));
      |name| >= 8 && name[..3] == "log" && name[|name| - 4..] == ".txt" && ParseInt(name[3..|name| - 4]) == Some(id1)
    ensures LogFileName(PrintInt(id1)) == LogFileName(PrintInt(id2)) <==> id1 == id2
  {
    var s1, s2 := PrintInt(id1), PrintInt(id2);
    assert LogFileName(s1)[3..|s1| + 3] == s1 && LogFileName(s2)[3..|s2| + 3] == s2;
    assert |LogFileName(s1)| == |s1| + 7 && |LogFileName(s2)| == |s2| + 7;
    PrintIntShape(id1);
    PrintIntParses(id1);
    PrintIntParses(id2);
  }

  // ---------- the log ----------

  class Log {
    var readRecords: seq<Record>
    var writeRecords: seq<Record>

    constructor ()
      ensures readRecords == [] && writeRecords == []
    {
      readRecords, writeRecords := [], [];
    }

    method AddToLog(rec: Record)
      modifies this
      ensures readRecords == if rec.ReadRecord? then old(readRecords) + [rec] else old(readRecords)
      ensures writeRecords == if rec.WriteRecord? then old(writeRecords) + [rec] else old(writeRecords)
    {
      match rec
      case ReadRecord(_, _, _, _, _) => readRecords := readRecords + [rec];
      case WriteRecord(_, _, _, _) => writeRecords := writeRecords + [rec];
    }

    method WriteServerLog() returns (lines: seq<string>)
      ensures lines == ServerLog(readRecords, writeRecords)
      ensures AllReads(readRecords) && AllWrites(writeRecords) ==> IsServerFile(lines, readRecords, writeRecords)
    {
      lines := ["Readers:", "--------"];
      lines := lines + [TextRow(["sSeq", "oVal", "rID", "rNum"])];
      var i := 0;
      while i < |readRecords|
        invariant 0 <= i <= |readRecords|
        invariant lines == READERS_HEAD + ServerTable(readRecords[..i])
      {
        lines := lines + [Row(ServerColumns(readRecords[i]))];
        assert readRecords[..i + 1] == readRecords[..i] + [readRecords[i]];
        i := i + 1;
      }
      assert readRecords[..i] == readRecords;
      lines := lines + [""];
      lines := lines + ["Writers:", "--------"];
      lines := lines + [TextRow(["sSeq", "oVal", "wID"])];
      i := 0;
      while i < |writeRecords|
        invariant 0 <= i <= |writeRecords|
        invariant lines == READERS_HEAD + ServerTable(readRecords) + WRITERS_HEAD + ServerTable(writeRecords[..i])
      {
        lines := lines + [Row(ServerColumns(writeRecords[i]))];
        assert writeRecords[..i + 1] == writeRecords[..i] + [writeRecords[i]];
        i := i + 1;
      }
      assert writeRecords[..i] == writeRecords;
      if AllReads(readRecords) && AllWrites(writeRecords) {
        ServerFileLines(readRecords, writeRecords);
      }
    }

    method WriteReaderLog(id: string) returns (lines: seq<string>)
      ensures lines == ReaderFile(id, readRecords)
      ensures AllReads(readRecords) ==> IsReaderFile(lines, id, readRecords)
      ensures AllReads(readRecords) ==> forall i :: 0 <= i < |readRecords| ==>
                && |lines[3 + i]| == 62 && ParsesTo(lines[3 + i][..20], readRecords[i].rSeq)
                && ParsesTo(lines[3 + i][21..41], readRecords[i].sSeq)
                && ParsesTo(lines[3 + i][42..62], readRecords[i].oVal)
    {
      lines := ["Client type : Reader", "Client Name : " + id, TextRow(["rSeq", "sSeq", "oVal"])];
      ghost var head := lines;
      var i := 0;
      while i < |readRecords|
        invariant 0 <= i <= |readRecords|
        invariant lines == head + ReaderTable(readRecords[..i])
      {
        lines := lines + [Row(ReaderColumns(readRecords[i]))];
        assert readRecords[..i + 1] == readRecords[..i] + [readRecords[i]];
        i := i + 1;
      }
      assert readRecords[..i] == readRecords;
      if AllReads(readRecords) {
        ReaderFileLines(id, readRecords);
        forall j | 0 <= j < |readRecords|
          ensures |lines[3 + j]| == 62 && ParsesTo(lines[3 + j][..20], readRecords[j].rSeq)
          ensures ParsesTo(lines[3 + j][21..41], readRecords[j].sSeq)
          ensures ParsesTo(lines[3 + j][42..62], readRecords[j].oVal)
        {
          ThreeCells(lines[3 + j], readRecords[j].rSeq, readRecords[j].sSeq, readRecords[j].oVal);
        }
      }
    }

    method WriteWriterLog(id: string) returns (lines: seq<string>)
      ensures lines == WriterFile(id, writeRecords)
      ensures AllWrites(writeRecords) ==> IsWriterFile(lines, id, writeRecords)
    {
      lines := ["Client type : Writer", "Client Name : " + id, TextRow(["rSeq", "sSeq"])];
      ghost var head := lines;
      var i := 0;
      while i < |writeRecords|
        invariant 0 <= i <= |writeRecords|
        invariant lines == head + WriterTable(writeRecords[..i])
      {
        lines := lines + [Row(WriterColumns(writeRecords[i]))];
        assert writeRecords[..i + 1] == writeRecords[..i] + [writeRecords[i]];
        i := i + 1;
      }
      assert writeRecords[..i] == writeRecords;
      if AllWrites(writeRecords) {
        WriterFileLines(id, writeRecords);
      }
    }
  }
}
