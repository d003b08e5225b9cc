/** The configuration reader: property lines, host entries, ids, acceptance. */
module Configuration {
  import opened Wrappers
  import opened Text
  import TextLaws

  // ---------- property lines ----------

  /** A line is `XY.key=value`: the first three characters are skipped; substring throws
      unless the first '=' comes after them. */
  predicate LineOk(line: string) {
    IndexOf(line, '=') >= 3
  }

  function KeyOf(line: string): string
    requires LineOk(line)
  {
    line[3..IndexOf(line, '=')]
  }

  function ValueOf(line: string): string
    requires LineOk(line)
  {
    line[IndexOf(line, '=') + 1..]
  }

  predicate LinesOk(lines: seq<string>) {
    forall i :: 0 <= i < |lines| ==> LineOk(lines[i])
  }

  /** The value on the last line with this key. */
  function Lookup(lines: seq<string>, key: string): Option<string>
    requires LinesOk(lines)
  {
    if lines == [] then None
    else
      var last := lines[|lines| - 1];
      if KeyOf(last) == key then Some(ValueOf(last)) else Lookup(lines[..|lines| - 1], key)
  }

  function LookupInt(lines: seq<string>, key: string): Option<int>
    requires LinesOk(lines)
  {
    match Lookup(lines, key)
    case None => None
    case Some(s) => ParseInt(s)
  }

  /** Last line wins: the table holds `v` for the key exactly if some line says so and
      no later line has the key; it holds nothing exactly if no line has the key. */
  lemma {:induction false} LastWins(lines: seq<string>, key: string, v: string)
    requires LinesOk(lines)
    ensures Lookup(lines, key) == Some(v) <==>
              exists i :: LastLine(lines, key, i) && ValueOf(lines[i]) == v
    ensures Lookup(lines, key) == None <==> forall i :: 0 <= i < |lines| ==> KeyOf(lines[i]) != key
  {
    hide KeyOf, ValueOf, LineOk;
    if lines != [] {
      var n, front := |lines| - 1, lines[..|lines| - 1];
      LastWins(front, key, v);
      if KeyOf(lines[n]) == key {
        assert LastLine(lines, key, n);
      } else {
        forall i ensures LastLine(lines, key, i) <==> LastLine(front, key, i) {
        }
      }
    }
  }

  /** Line `i` is the last with this key. */
  ghost predicate LastLine(lines: seq<string>, key: string, i: int)
    requires LinesOk(lines)
  {
    && 0 <= i < |lines| && KeyOf(lines[i]) == key
    && forall j :: i < j < |lines| ==> KeyOf(lines[j]) != key
  }

  predicate DistinctKeys(lines: seq<string>)
    requires LinesOk(lines)
  {
    forall i, j :: 0 <= i < j < |lines| ==> KeyOf(lines[i]) != KeyOf(lines[j])
  }

  /** With distinct keys the table holds the value of the line with the key, wherever it is. */
  lemma LookupOfMember(lines: seq<string>, line: string)
    requires LinesOk(lines) && DistinctKeys(lines) && line in lines
    ensures Lookup(lines, KeyOf(line)) == Some(ValueOf(line))
  {
    var i :| 0 <= i < |lines| && lines[i] == line;
    assert LastLine(lines, KeyOf(line), i);
    LastWins(lines, KeyOf(line), ValueOf(line));
  }

  /** With distinct keys the order of the lines does not matter. */
  lemma LookupOfPermutation(l1: seq<string>, l2: seq<string>, key: string)
    requires LinesOk(l1) && LinesOk(l2) && DistinctKeys(l1) && DistinctKeys(l2)
    requires forall line :: line in l1 <==> line in l2
    ensures Lookup(l1, key) == Lookup(l2, key)
  {
    hide Lookup, KeyOf, ValueOf, LineOk, LastLine;
    LastWins(l1, key, "");
    LastWins(l2, key, "");
    if Lookup(l1, key).Some? {
      var i :| 0 <= i < |l1| && KeyOf(l1[i]) == key;
      LookupOfMember(l1, l1[i]);
      LookupOfMember(l2, l1[i]);
    } else {
      forall i | 0 <= i < |l2| ensures KeyOf(l2[i]) != key {
        assert l2[i] in l1;
      }
    }
  }

  // ---------- host entries ----------

  /** `user@address password`, the password and its space being optional. */
  datatype Host = Host(user: string, address: string, password: string)

  function ParseHost(kol: string): Option<Host> {
    var at := IndexOf(kol, '@');
    var space := IndexOf(kol, ' ');
    if at == -1 || (space != -1 && space < at) then None
    else if space == -1 then Some(Host(kol[..at], kol[at + 1..], ""))
    else Some(Host(kol[..at], kol[at + 1..space], kol[space + 1..]))
  }

  /** The texts that denote a host. */
  predicate Denotes(kol: string, h: Host) {
    && '@' !in h.user && ' ' !in h.user && ' ' !in h.address
    && (kol == h.user + "@" + h.address + " " + h.password
        || (h.password == "" && kol == h.user + "@" + h.address))
  }

  lemma BareHostParses(user: string, address: string)
    requires '@' !in user && ' ' !in user && ' ' !in address
    ensures ParseHost(user + "@" + address) == Some(Host(user, address, ""))
  {
    var kol := user + "@" + address;
    assert kol[..|user|] == user && kol[|user| + 1..] == address;
    IndexOfIs(kol, '@', |user|);
  }

  lemma FullHostParses(h: Host)
    requires '@' !in h.user && ' ' !in h.user && ' ' !in h.address
    ensures ParseHost(h.user + "@" + h.address + " " + h.password) == Some(h)
  {
    var head := h.user + "@" + h.address;
    var kol := head + " " + h.password;
    assert kol[..|h.user|] == h.user;
    IndexOfIs(kol, '@', |h.user|);
    SpaceAfter(head, h.password);
    assert kol[|h.user| + 1..|head|] == h.address;
  }

  lemma ParsedDenotes(kol: string, h: Host)
    requires ParseHost(kol) == Some(h)
    ensures Denotes(kol, h)
  {
    var at, space := IndexOf(kol, '@'), IndexOf(kol, ' ');
    if space == -1 {
      assert kol == h.user + "@" + h.address;
    } else {
      assert kol == h.user + "@" + h.address + " " + h.password;
      assert forall i :: 0 <= i < space ==> kol[i] == kol[..space][i] != ' ';
    }
  }

  /** Parsing a host entry is exact: it succeeds with `h` on the texts that denote `h`. */
  lemma {:induction false} HostExact(kol: string, h: Host)
    ensures ParseHost(kol) == Some(h) <==> Denotes(kol, h)
  {
    if Denotes(kol, h) {
      if kol == h.user + "@" + h.address + " " + h.password {
        FullHostParses(h);
      } else {
        BareHostParses(h.user, h.address);
      }
    }
    if ParseHost(kol) == Some(h) {
      ParsedDenotes(kol, h);
    }
  }

  // ---------- which files are accepted ----------

  /** What Java int arithmetic makes of the sum or product `x`: the int that differs from
      it by a multiple of 2^32. */
  function Wrap(x: int): int {
    (x - INT_MIN) % 0x1_0000_0000 + INT_MIN
  }

  lemma WrapExact(x: int)
    ensures Int32(Wrap(x)) && (Wrap(x) - x) % 0x1_0000_0000 == 0 && (Int32(x) ==> Wrap(x) == x)
  {
  }

  function ReaderId(i: nat): int {
    i + 1
  }

  function WriterId(i: nat, numberOfWriters: nat): int {
    Wrap(i + 1 + numberOfWriters)
  }

  function Tagged(tag: string, i: nat): string {
    tag + PrintInt(i)
  }

  function HostAt(lines: seq<string>, tag: string, i: nat): Option<Host>
    requires LinesOk(lines)
  {
    match Lookup(lines, Tagged(tag, i))
    case None => None
    case Some(kol) => ParseHost(kol)
  }

  predicate HostsOk(lines: seq<string>, tag: string, n: nat)
    requires LinesOk(lines)
  {
    forall i: nat :: i < n ==> HostAt(lines, tag, i).Some?
  }

  /** The files the reader accepts.  The array of writer names has one entry per reader,
      so more writers than readers is an error. */
  predicate Acceptable(lines: seq<string>, rmi: bool) {
    && LinesOk(lines) && ScalarsOk(lines, rmi)
    && var r := LookupInt(lines, "numberOfReaders").value;
       var w := LookupInt(lines, "numberOfWriters").value;
       0 <= w <= r && HostsOk(lines, "reader", r) && HostsOk(lines, "writer", w)
  }

  /** The required keys are there, and the numbers among them are ints. */
  predicate ScalarsOk(lines: seq<string>, rmi: bool)
    requires LinesOk(lines)
  {
    && (rmi ==> LookupInt(lines, "rmiregistry.port").Some?)
    && Lookup(lines, "server").Some?
    && LookupInt(lines, "server.port").Some?
    && LookupInt(lines, "numberOfReaders").Some?
    && LookupInt(lines, "numberOfWriters").Some?
    && LookupInt(lines, "numberOfAccesses").Some?
  }

  // ---------- what an accepted file says, on its lines ----------

  /** The line is any three characters but '=', the key, '=' and the value. */
  predicate SaysLine(line: string, key: string, value: string) {
    |line| >= 3 && '=' !in line[..3] && '=' !in key && line[3..] == key + "=" + value
  }

  predicate HasKey(line: string, key: string) {
    |line| >= 3 && '=' !in line[..3] && '=' !in key && key + "=" <= line[3..]
  }

  predicate IsProperty(line: string) {
    |line| > 3 && '=' !in line[..3] && '=' in line[3..]
  }

  /** The last line with the key gives it this value. */
  ghost predicate Says(lines: seq<string>, key: string, value: string) {
    exists i :: LastSays(lines, i, key, value)
  }

  ghost predicate LastSays(lines: seq<string>, i: int, key: string, value: string) {
    && 0 <= i < |lines| && SaysLine(lines[i], key, value)
    && forall j :: i < j < |lines| ==> !HasKey(lines[j], key)
  }

  ghost predicate SaysInt(lines: seq<string>, key: string, x: int) {
    exists text :: Says(lines, key, text) && ParseInt(text) == Some(x)
  }

  ghost predicate SaysHost(lines: seq<string>, key: string, h: Host) {
    exists text :: Says(lines, key, text) && Denotes(text, h)
  }

  /** The last line whose key is the tag and the decimal text of `i`, without sign or
      leading zero, gives this host. */
  ghost predicate SaysEntry(lines: seq<string>, tag: string, i: nat, h: Host) {
    exists d :: TextLaws.Canonical(d) && ParseInt(d) == Some(i) && SaysHost(lines, tag + d, h)
  }

  ghost predicate SaysEntries(lines: seq<string>, tag: string, n: nat) {
    forall i: nat :: i < n ==> HasEntry(lines, tag, i)
  }

  ghost predicate HasEntry(lines: seq<string>, tag: string, i: nat) {
    exists h :: SaysEntry(lines, tag, i, h)
  }

  /** Every line is a property, the required keys are there, the numbers are 32-bit ints,
      there are no more writers than readers, and every reader and writer has its entry. */
  ghost predicate Complete(lines: seq<string>, rmi: bool) {
    && (forall i :: 0 <= i < |lines| ==> IsProperty(lines[i]))
    && (rmi ==> exists x :: SaysInt(lines, "rmiregistry.port", x))
    && (exists text :: Says(lines, "server", text))
    && (exists x :: SaysInt(lines, "server.port", x))
    && (exists x :: SaysInt(lines, "numberOfAccesses", x))
    && exists r, w :: SaysSizes(lines, r, w) && SaysEntries(lines, "reader", r) && SaysEntries(lines, "writer", w)
  }

  ghost predicate SaysSizes(lines: seq<string>, r: int, w: int) {
    SaysInt(lines, "numberOfReaders", r) && SaysInt(lines, "numberOfWriters", w) && 0 <= w <= r
  }

  lemma PropertyExact(line: string)
    ensures LineOk(line) <==> IsProperty(line)
  {
    var k := IndexOf(line, '=');
    if k >= 3 {
      assert line[3..][k - 3] == '=';
      assert forall i :: 0 <= i < 3 ==> line[i] == line[..k][i] != '=';
    }
    if IsProperty(line) {
      var i :| 0 <= i < |line[3..]| && line[3..][i] == '=';
      assert line[3 + i] == '=';
      assert forall m :: 0 <= m < 3 ==> line[m] == line[..3][m] != '=';
    }
  }

  lemma LineExact(line: string, key: string, value: string)
    requires LineOk(line)
    ensures KeyOf(line) == key && ValueOf(line) == value <==> SaysLine(line, key, value)
    ensures KeyOf(line) == key <==> HasKey(line, key)
  {
    var k := IndexOf(line, '=');
    var head := line[..k];
    assert head == line[..3] + KeyOf(line);
    assert line[3..] == KeyOf(line) + "=" + ValueOf(line);
    if HasKey(line, key) {
      var n := 3 + |key|;
      assert line[3..][|key|] == (key + "=")[|key|];
      assert line[3..][..|key|] == key;
      assert line[..n] == line[..3] + key;
      IndexOfIs(line, '=', n);
    }
    if SaysLine(line, key, value) {
      assert key + "=" <= line[3..];
    }
  }

  lemma LookupExact(lines: seq<string>, key: string, value: string)
    requires LinesOk(lines)
    ensures Lookup(lines, key) == Some(value) <==> Says(lines, key, value)
  {
    hide Lookup, KeyOf, ValueOf, LineOk, SaysLine, HasKey;
    LastWins(lines, key, value);
    forall i | 0 <= i < |lines|
      ensures KeyOf(lines[i]) == key && ValueOf(lines[i]) == value <==> SaysLine(lines[i], key, value)
      ensures KeyOf(lines[i]) == key <==> HasKey(lines[i], key)
    {
      LineExact(lines[i], key, value);
    }
    forall i ensures LastLine(lines, key, i) && ValueOf(lines[i]) == value <==> LastSays(lines, i, key, value) {
    }
  }

  lemma LookupIntExact(lines: seq<string>, key: string, x: int)
    requires LinesOk(lines)
    ensures LookupInt(lines, key) == Some(x) <==> SaysInt(lines, key, x)
  {
    hide Lookup, ParseInt, Says;
    forall text ensures Lookup(lines, key) == Some(text) <==> Says(lines, key, text) {
      LookupExact(lines, key, text);
    }
    assert Lookup(lines, key).Some? ==> Says(lines, key, Lookup(lines, key).value);
  }

  lemma HostAtExact(lines: seq<string>, tag: string, i: nat, h: Host)
    requires LinesOk(lines) && Int32(i)
    ensures HostAt(lines, tag, i) == Some(h) <==> SaysEntry(lines, tag, i, h)
  {
    hide Lookup, ParseHost, ParseInt, PrintInt, Says, Denotes, LinesOk;
    var key := tag + PrintInt(i);
    forall d: string ensures d == PrintInt(i) <==> TextLaws.Canonical(d) && ParseInt(d) == Some(i) {
      TextLaws.DecimalExact(i, d);
    }
    forall text ensures Lookup(lines, key) == Some(text) <==> Says(lines, key, text) {
      LookupExact(lines, key, text);
    }
    forall text ensures ParseHost(text) == Some(h) <==> Denotes(text, h) {
      HostExact(text, h);
    }
    assert HostAt(lines, tag, i) == Some(h) <==> SaysHost(lines, key, h);
  }

  lemma HostsExact(lines: seq<string>, tag: string, n: nat)
    requires LinesOk(lines) && Int32(n)
    ensures HostsOk(lines, tag, n) <==> SaysEntries(lines, tag, n)
  {
    hide HostAt, SaysEntry, LinesOk;
    forall i: nat | i < n ensures HostAt(lines, tag, i).Some? <==> HasEntry(lines, tag, i) {
      forall h ensures HostAt(lines, tag, i) == Some(h) <==> SaysEntry(lines, tag, i, h) {
        HostAtExact(lines, tag, i, h);
      }
      assert HostAt(lines, tag, i).Some? ==> SaysEntry(lines, tag, i, HostAt(lines, tag, i).value);
    }
  }

  lemma NoKey(lines: seq<string>, key: string)
    requires LinesOk(lines)
    ensures Lookup(lines, key) == None <==> forall i :: 0 <= i < |lines| ==> !HasKey(lines[i], key)
  {
    hide Lookup, KeyOf, ValueOf, LineOk, HasKey;
    LastWins(lines, key, "");
    forall i | 0 <= i < |lines| ensures KeyOf(lines[i]) == key <==> HasKey(lines[i], key) {
      LineExact(lines[i], key, "");
    }
  }

  lemma ScalarsExact(lines: seq<string>, key: string)
    requires LinesOk(lines)
    ensures Lookup(lines, key).Some? <==> exists text :: Says(lines, key, text)
    ensures LookupInt(lines, key).Some? <==> exists x :: SaysInt(lines, key, x)
    ensures forall x :: LookupInt(lines, key) == Some(x) <==> SaysInt(lines, key, x)
  {
    hide Lookup, LookupInt, Says, SaysInt, LinesOk;
    forall text ensures Lookup(lines, key) == Some(text) <==> Says(lines, key, text) {
      LookupExact(lines, key, text);
    }
    forall x ensures LookupInt(lines, key) == Some(x) <==> SaysInt(lines, key, x) {
      LookupIntExact(lines, key, x);
    }
    assert Lookup(lines, key).Some? ==> Says(lines, key, Lookup(lines, key).value);
    assert LookupInt(lines, key).Some? ==> SaysInt(lines, key, LookupInt(lines, key).value);
  }

  /** The reader accepts exactly the complete files. */
  lemma AcceptableExact(lines: seq<string>, rmi: bool)
    ensures Acceptable(lines, rmi) <==> Complete(lines, rmi)
  {
    hide Lookup, LookupInt, Says, SaysInt, LineOk, IsProperty, HostsOk, SaysEntries;
    forall i | 0 <= i < |lines| ensures LineOk(lines[i]) <==> IsProperty(lines[i]) {
      PropertyExact(lines[i]);
    }
    if LinesOk(lines) {
      ScalarsExact(lines, "rmiregistry.port");
      ScalarsExact(lines, "server");
      ScalarsExact(lines, "server.port");
      ScalarsExact(lines, "numberOfReaders");
      ScalarsExact(lines, "numberOfWriters");
      ScalarsExact(lines, "numberOfAccesses");
      SizesExact(lines);
    }
  }

  lemma SizesExact(lines: seq<string>)
    requires LinesOk(lines)
    ensures
      (exists r, w :: SaysSizes(lines, r, w) && SaysEntries(lines, "reader", r) && SaysEntries(lines, "writer", w))
      <==>
      && LookupInt(lines, "numberOfReaders").Some? && LookupInt(lines, "numberOfWriters").Some?
      && var r, w := LookupInt(lines, "numberOfReaders").value, LookupInt(lines, "numberOfWriters").value;
         0 <= w <= r && HostsOk(lines, "reader", r) && HostsOk(lines, "writer", w)
  {
    hide Lookup, Says, SaysInt, LinesOk, HostsOk, SaysEntries;
    ScalarsExact(lines, "numberOfReaders");
    ScalarsExact(lines, "numberOfWriters");
    if LookupInt(lines, "numberOfReaders").Some? && LookupInt(lines, "numberOfWriters").Some? {
      var r, w := LookupInt(lines, "numberOfReaders").value, LookupInt(lines, "numberOfWriters").value;
      if 0 <= w <= r {
        HostsExact(lines, "reader", r);
        HostsExact(lines, "writer", w);
        assert SaysSizes(lines, r, w);
      }
    }
  }

  lemma WellFormed(lines: seq<string>, rmi: bool)
    requires Acceptable(lines, rmi)
    ensures LinesOk(lines)
  {
  }

  /** Any permutation of a file with distinct keys is accepted or rejected alike, and
      every entry of it reads the same. */
  lemma PermutedFile(l1: seq<string>, l2: seq<string>, rmi: bool)
    requires LinesOk(l1) && DistinctKeys(l1) && multiset(l1) == multiset(l2)
    ensures LinesOk(l2)
    ensures forall key :: Lookup(l1, key) == Lookup(l2, key)
    ensures forall tag, i: nat :: HostAt(l1, tag, i) == HostAt(l2, tag, i)
    ensures Acceptable(l1, rmi) <==> Acceptable(l2, rmi)
  {
    SameLines(l1, l2);
    forall key ensures Lookup(l1, key) == Lookup(l2, key) {
      LookupOfPermutation(l1, l2, key);
    }
    SameAnswers(l1, l2, rmi);
  }

  lemma SameAnswers(l1: seq<string>, l2: seq<string>, rmi: bool)
    requires LinesOk(l1) && LinesOk(l2) && forall key :: Lookup(l1, key) == Lookup(l2, key)
    ensures forall tag, i: nat :: HostAt(l1, tag, i) == HostAt(l2, tag, i)
    ensures Acceptable(l1, rmi) <==> Acceptable(l2, rmi)
  {
    hide Lookup, ParseHost, ParseInt;
    forall key ensures LookupInt(l1, key) == LookupInt(l2, key) {
    }
    forall tag, i: nat ensures HostAt(l1, tag, i) == HostAt(l2, tag, i) {
    }
  }

  /** A permutation keeps the lines well-formed and their keys distinct. */
  lemma SameLines(l1: seq<string>, l2: seq<string>)
    requires LinesOk(l1) && DistinctKeys(l1) && multiset(l1) == multiset(l2)
    ensures LinesOk(l2) && DistinctKeys(l2) && forall line :: line in l1 <==> line in l2
  {
    forall line ensures line in l1 <==> line in l2 {
      assert line in multiset(l1) <==> line in multiset(l2);
    }
    forall i | 0 <= i < |l2| ensures LineOk(l2[i]) {
      assert l2[i] in l1;
    }
    forall i, j | 0 <= i < j < |l2| ensures KeyOf(l2[i]) != KeyOf(l2[j]) {
      TwoPlaces(l1, l2, i, j);
    }
  }

  lemma CountOnce(lines: seq<string>, a: nat)
    requires a < |lines| && forall j :: 0 <= j < |lines| && j != a ==> lines[j] != lines[a]
    ensures multiset(lines)[lines[a]] == 1
  {
    assert lines == lines[..a] + [lines[a]] + lines[a + 1..];
    assert lines[a] !in lines[..a] && lines[a] !in lines[a + 1..];
  }

  lemma CountTwice(lines: seq<string>, i: nat, j: nat)
    requires i < j < |lines| && lines[i] == lines[j]
    ensures multiset(lines)[lines[i]] >= 2
  {
    assert lines == lines[..j] + lines[j..];
    assert lines[..j][i] == lines[i] && lines[j..][0] == lines[i];
    assert lines[i] in multiset(lines[..j]) && lines[i] in multiset(lines[j..]);
  }

  lemma TwoPlaces(l1: seq<string>, l2: seq<string>, i: nat, j: nat)
    requires LinesOk(l1) && LinesOk(l2) && DistinctKeys(l1) && multiset(l1) == multiset(l2)
    requires i < j < |l2|
    ensures KeyOf(l2[i]) != KeyOf(l2[j])
  {
    hide KeyOf, LineOk;
    assert l2[i] in multiset(l1) && l2[j] in multiset(l1);
    var a :| 0 <= a < |l1| && l1[a] == l2[i];
    var b :| 0 <= b < |l1| && l1[b] == l2[j];
    CountOnce(l1, a);
    if l2[i] == l2[j] {
      CountTwice(l2, i, j);
    }
  }

  /** In an accepted configuration no two readers share an id, nor do two writers; but
      some reader shares an id with some writer unless there are no writers or as many
      writers as readers. */
  lemma IdsDistinct(lines: seq<string>, rmi: bool)
    requires Acceptable(lines, rmi)
    ensures
      var r := LookupInt(lines, "numberOfReaders").value;
      var w := LookupInt(lines, "numberOfWriters").value;
      && 0 <= w <= r
      && (forall i: nat, j: nat :: i < j < r ==> ReaderId(i) != ReaderId(j))
      && (forall i: nat, j: nat :: i < j < w ==> WriterId(i, w) != WriterId(j, w))
      && ((forall i: nat, j: nat :: i < r && j < w ==> ReaderId(i) != WriterId(j, w)) <==> w == 0 || w == r)
  {
    hide Lookup, HostsOk;
    var r := LookupInt(lines, "numberOfReaders").value;
    var w := LookupInt(lines, "numberOfWriters").value;
    if 0 < w < r {
      assert ReaderId(w) == WriterId(0, w);
    }
  }

  function Line(key: string, value: string): string {
    "RW." + key + "=" + value
  }

  lemma LineReads(key: string, value: string)
    requires '=' !in key
    ensures LineOk(Line(key, value)) && KeyOf(Line(key, value)) == key && ValueOf(Line(key, value)) == value
  {
    var line, k := Line(key, value), 3 + |key|;
    assert line[..k] == "RW." + key;
    IndexOfIs(line, '=', k);
    assert line[3..k] == key && line[k + 1..] == value;
  }

  /** Two readers and one writer, all well-formed. */
  const CLASH_KEYS: seq<string> :=
    ["server", "server.port", "numberOfReaders", "numberOfWriters", "numberOfAccesses", "reader0", "reader1", "writer0"]
  const CLASH_VALUES: seq<string> :=
    ["host", "1", "2", "1", "1", "u@h", "u@h", "u@h"]

  function ClashFile(): seq<string> {
    seq(8, i requires 0 <= i < 8 => Line(CLASH_KEYS[i], CLASH_VALUES[i]))
  }

  lemma ClashKeysDiffer(i: nat, j: nat)
    requires i < j < 8
    ensures CLASH_KEYS[i] != CLASH_KEYS[j]
  {
    assert CLASH_KEYS[2][8] == 'R' && CLASH_KEYS[3][8] == 'W';
    assert CLASH_KEYS[5][6] == '0' && CLASH_KEYS[6][6] == '1' && CLASH_KEYS[7][0] == 'w' && CLASH_KEYS[6][0] == 'r' && CLASH_KEYS[5][0] == 'r';
  }

  lemma ClashFileReads(i: nat)
    requires i < 8
    ensures LinesOk(ClashFile()) && Lookup(ClashFile(), CLASH_KEYS[i]) == Some(CLASH_VALUES[i])
  {
    hide Lookup, KeyOf, ValueOf, LineOk, IndexOf;
    forall j | 0 <= j < 8
      ensures LineOk(ClashFile()[j]) && KeyOf(ClashFile()[j]) == CLASH_KEYS[j] && ValueOf(ClashFile()[j]) == CLASH_VALUES[j]
    {
      NoEquals(j);
      LineReads(CLASH_KEYS[j], CLASH_VALUES[j]);
    }
    forall j, k | 0 <= j < k < 8 ensures KeyOf(ClashFile()[j]) != KeyOf(ClashFile()[k]) {
      ClashKeysDiffer(j, k);
    }
    LookupOfMember(ClashFile(), ClashFile()[i]);
  }

  lemma NoEquals(i: nat)
    requires i < 8
    ensures '=' !in CLASH_KEYS[i]
  {
  }

  lemma SmallInts()
    ensures ParseInt("1") == Some(1) && ParseInt("2") == Some(2)
    ensures Tagged("reader", 0) == "reader0" && Tagged("reader", 1) == "reader1" && Tagged("writer", 0) == "writer0"
  {
    PrintIntParses(1);
    PrintIntParses(2);
    assert PrintInt(1) == "1" && PrintInt(2) == "2" && PrintInt(0) == "0";
  }

  /** The id clash is real: this accepted file gives its second reader and its only
      writer the same id. */
  lemma IdsCanClash()
    ensures LinesOk(ClashFile()) && Acceptable(ClashFile(), false)
    ensures LookupInt(ClashFile(), "numberOfReaders") == Some(2) && LookupInt(ClashFile(), "numberOfWriters") == Some(1)
    ensures ReaderId(1) == WriterId(0, 1)
  {
    hide Lookup, LineOk, IndexOf, ParseInt, ParseHost, PrintInt, Tagged, ClashFile;
    forall i: nat | i < 8
      ensures LinesOk(ClashFile()) && Lookup(ClashFile(), CLASH_KEYS[i]) == Some(CLASH_VALUES[i])
    {
      ClashFileReads(i);
    }
    SmallInts();
    BareHostParses("u", "h");
    assert "u" + "@" + "h" == "u@h";
    var lines := ClashFile();
    assert Lookup(lines, "server") == Some("host") by { assert CLASH_KEYS[0] == "server"; }
    assert Lookup(lines, "server.port") == Some("1") by { assert CLASH_KEYS[1] == "server.port"; }
    assert Lookup(lines, "numberOfReaders") == Some("2") by { assert CLASH_KEYS[2] == "numberOfReaders"; }
    assert Lookup(lines, "numberOfWriters") == Some("1") by { assert CLASH_KEYS[3] == "numberOfWriters"; }
    assert Lookup(lines, "numberOfAccesses") == Some("1") by { assert CLASH_KEYS[4] == "numberOfAccesses"; }
    assert Lookup(lines, "reader0") == Some("u@h") by { assert CLASH_KEYS[5] == "reader0"; }
    assert Lookup(lines, "reader1") == Some("u@h") by { assert CLASH_KEYS[6] == "reader1"; }
    assert Lookup(lines, "writer0") == Some("u@h") by { assert CLASH_KEYS[7] == "writer0"; }
  }

  function Get(properties: map<string, string>, key: string): Option<string> {
    if key in properties then Some(properties[key]) else None
  }

  /** The table answers like the lines. */
  ghost predicate Represents(properties: map<string, string>, lines: seq<string>)
    requires LinesOk(lines)
  {
    forall key :: Get(properties, key) == Lookup(lines, key)
  }

  /** Folding the lines into the table keeps the last value of each key; it throws
      exactly when some line is malformed. */
  method ReadProperties(lines: seq<string>) returns (ok: bool, properties: map<string, string>)
    ensures ok <==> LinesOk(lines)
    ensures ok ==> Represents(properties, lines)
  {
    properties := map[];
    var i := 0;
    assert lines[..0] == [];
    while i < |lines|
      invariant 0 <= i <= |lines| && LinesOk(lines[..i])
      invariant Represents(properties, lines[..i])
    {
      var s := lines[i];
      var eq := IndexOf(s, '=');
      if eq < 3 {
        return false, map[];
      }
      var front := lines[..i + 1];
      assert front[..i] == lines[..i];
      properties := properties[s[3..eq] := s[eq + 1..]];
      i := i + 1;
    }
    assert lines[..i] == lines;
    ok := true;
  }

  /** The substring arithmetic of the two host loops. */
  method ReadHost(kol: string) returns (ok: bool, name: string, add: string, pass: string)
    ensures ok <==> ParseHost(kol).Some?
    ensures ok ==> ParseHost(kol) == Some(Host(name, add, pass))
  {
    name, add, pass := "", "", "";
    var indexU := IndexOf(kol, '@');
    if indexU == -1 {
      indexU := |kol|;
    }
    name := kol[..indexU];
    var indexA := IndexOf(kol, ' ');
    if indexA == -1 {
      indexA := |kol|;
    }
    if indexU + 1 > indexA {
      return false, name, add, pass;
    }
    add := kol[indexU + 1..indexA];
    if indexA != |kol| {
      pass := kol[indexA + 1..];
    } else {
      assert kol[indexU + 1..indexA] == kol[indexU + 1..];
    }
    ok := true;
  }

  ghost predicate EntryAt(lines: seq<string>, tag: string, i: nat, name: string, add: string, pass: string)
    requires LinesOk(lines)
  {
    HostAt(lines, tag, i) == Some(Host(name, add, pass))
  }

  method ReadText(properties: map<string, string>, ghost lines: seq<string>, key: string)
    returns (ok: bool, value: string)
    requires LinesOk(lines) && Represents(properties, lines)
    ensures Lookup(lines, key) == if ok then Some(value) else None
  {
    assert Get(properties, key) == Lookup(lines, key);
    ok := key in properties;
    value := if ok then properties[key] else "";
  }

  /** A missing key is an error, a text that is no int an exception. */
  method ReadInt(properties: map<string, string>, ghost lines: seq<string>, key: string)
    returns (ok: bool, value: int)
    requires LinesOk(lines) && Represents(properties, lines)
    ensures LookupInt(lines, key) == if ok then Some(value) else None
    ensures Int32(value)
  {
    var text;
    ok, text := ReadText(properties, lines, key);
    value := 0;
    if ok {
      match ParseInt(text)
      case Some(x) => value := x;
      case None => ok := false;
    }
  }

  /** One entry: its key must be there and its text must be a host. */
  method ReadEntry(properties: map<string, string>, ghost lines: seq<string>, tag: string, i: nat)
    returns (ok: bool, name: string, add: string, pass: string)
    requires LinesOk(lines) && Represents(properties, lines)
    ensures ok <==> HostAt(lines, tag, i).Some?
    ensures ok ==> EntryAt(lines, tag, i, name, add, pass)
  {
    name, add, pass := "", "", "";
    var kol;
    ok, kol := ReadText(properties, lines, Tagged(tag, i));
    if ok {
      ok, name, add, pass := ReadHost(kol);
    }
  }

  /** One of the two host loops: entries 0..n of the tag go into the arrays, with the
      ids first, first + 1, ...; it fails on a missing or malformed entry, and where the
      array of names is too short. */
  method ReadHosts(properties: map<string, string>, ghost lines: seq<string>, tag: string, n: nat, first: int,
                   names: array<string>, ids: array<int>, adds: array<string>, passes: array<string>)
    returns (ok: bool)
    requires LinesOk(lines) && Represents(properties, lines)
    requires names != adds && names != passes && adds != passes
    requires ids.Length == adds.Length == passes.Length == n
    modifies names, ids, adds, passes
    ensures ok <==> HostsOk(lines, tag, n) && n <= names.Length
    ensures ok ==> forall i: nat :: i < n ==> EntryAt(lines, tag, i, names[i], adds[i], passes[i])
    ensures ok ==> forall i: nat :: i < n ==> ids[i] == Wrap(i + first)
    ensures Int32(n) ==> (ok <==> SaysEntries(lines, tag, n) && n <= names.Length)
    ensures Int32(n) && ok ==> forall i: nat :: i < n ==> SaysEntry(lines, tag, i, Host(names[i], adds[i], passes[i]))
  {
    hide HostAt, LinesOk, Wrap, SaysEntry, SaysEntries;
    if Int32(n) { HostsExact(lines, tag, n); }
    var i := 0;
    while i < n
      invariant 0 <= i <= n && i <= names.Length
      invariant forall j: nat :: j < i ==> EntryAt(lines, tag, j, names[j], adds[j], passes[j])
      invariant forall j: nat :: j < i ==> ids[j] == Wrap(j + first)
    {
      var found, name, add, pass := ReadEntry(properties, lines, tag, i);
      if !found {
        return false;
      }
      if i >= names.Length {
        return false;
      }
      names[i] := name;
      ids[i] := Wrap(i + first);
      adds[i] := add;
      passes[i] := pass;
      i := i + 1;
    }
    forall j: nat | j < n ensures HostAt(lines, tag, j).Some? {
      assert EntryAt(lines, tag, j, names[j], adds[j], passes[j]);
    }
    if Int32(n) {
      forall j: nat | j < n ensures SaysEntry(lines, tag, j, Host(names[j], adds[j], passes[j])) {
        assert EntryAt(lines, tag, j, names[j], adds[j], passes[j]);
        HostAtExact(lines, tag, j, Host(names[j], adds[j], passes[j]));
      }
    }
    ok := true;
  }

  class SystemConfiguration {
    const rmi: bool
    var error: bool
    var serverAdd: string
    var serverPort: int
    var rmiPort: int
    var numberOfReaders: int
    var numberOfWriters: int
    var numberOfAccess: int
    var path: string
    var readersUsername: array<string>
    var readersAdd: array<string>
    var readersPass: array<string>
    var readersIDs: array<int>
    var writersUsername: array<string>
    var writersAdd: array<string>
    var writersPass: array<string>
    var writersIDs: array<int>

    ghost predicate ReflectsScalars(lines: seq<string>, userDir: string)
      requires LinesOk(lines)
      reads `serverAdd, `serverPort, `rmiPort, `numberOfReaders, `numberOfWriters, `numberOfAccess, `path
    {
      && Lookup(lines, "server") == Some(serverAdd)
      && LookupInt(lines, "server.port") == Some(serverPort)
      && (rmi ==> LookupInt(lines, "rmiregistry.port") == Some(rmiPort))
      && LookupInt(lines, "numberOfReaders") == Some(numberOfReaders)
      && LookupInt(lines, "numberOfWriters") == Some(numberOfWriters)
      && LookupInt(lines, "numberOfAccesses") == Some(numberOfAccess)
      && path == (match Lookup(lines, "path") case Some(p) => p case None => userDir)
    }

    ghost predicate ReflectsReaders(lines: seq<string>)
      requires LinesOk(lines)
      reads `numberOfReaders, `readersUsername, `readersAdd, `readersPass, `readersIDs
      reads readersUsername, readersAdd, readersPass, readersIDs
    {
      && readersUsername.Length == readersAdd.Length == readersPass.Length == readersIDs.Length == numberOfReaders
      && (forall i: nat :: i < numberOfReaders ==>
            EntryAt(lines, "reader", i, readersUsername[i], readersAdd[i], readersPass[i]))
      && (forall i: nat :: i < numberOfReaders ==> readersIDs[i] == ReaderId(i))
    }

    ghost predicate ReflectsWriters(lines: seq<string>)
      requires LinesOk(lines)
      reads `numberOfReaders, `numberOfWriters, `writersUsername, `writersAdd, `writersPass, `writersIDs
      reads writersUsername, writersAdd, writersPass, writersIDs
    {
      && 0 <= numberOfWriters <= numberOfReaders == writersUsername.Length
      && writersAdd.Length == writersPass.Length == writersIDs.Length == numberOfWriters
      && (forall i: nat :: i < numberOfWriters ==>
            EntryAt(lines, "writer", i, writersUsername[i], writersAdd[i], writersPass[i]))
      && (forall i: nat :: i < numberOfWriters ==> writersIDs[i] == WriterId(i, numberOfWriters))
    }

    /** Every field is what the last line with its key says; the readers' ids are 1, 2, ...
        and the writers' go on from their own number. */
    ghost predicate SaidBy(lines: seq<string>, userDir: string)
      reads this, readersUsername, readersAdd, readersPass, readersIDs
      reads writersUsername, writersAdd, writersPass, writersIDs
    {
      && ScalarsSaidBy(lines, userDir)
      && readersUsername.Length == readersAdd.Length == readersPass.Length == readersIDs.Length == numberOfReaders
      && (forall i: nat :: i < numberOfReaders ==>
            && SaysEntry(lines, "reader", i, Host(readersUsername[i], readersAdd[i], readersPass[i]))
            && readersIDs[i] == i + 1)
      && writersUsername.Length == numberOfReaders >= numberOfWriters
      && writersAdd.Length == writersPass.Length == writersIDs.Length == numberOfWriters
      && (forall i: nat :: i < numberOfWriters ==>
            && SaysEntry(lines, "writer", i, Host(writersUsername[i], writersAdd[i], writersPass[i]))
            && writersIDs[i] == Wrap(i + 1 + numberOfWriters))
    }

    ghost predicate ScalarsSaidBy(lines: seq<string>, userDir: string)
      reads `serverAdd, `serverPort, `rmiPort, `numberOfReaders, `numberOfWriters, `numberOfAccess, `path
    {
      && Says(lines, "server", serverAdd) && SaysInt(lines, "server.port", serverPort)
      && (rmi ==> SaysInt(lines, "rmiregistry.port", rmiPort))
      && SaysInt(lines, "numberOfReaders", numberOfReaders) && SaysInt(lines, "numberOfWriters", numberOfWriters)
      && SaysInt(lines, "numberOfAccesses", numberOfAccess)
      && if exists i :: 0 <= i < |lines| && HasKey(lines[i], "path") then Says(lines, "path", path) else path == userDir
    }

    lemma ScalarsAreSaid(lines: seq<string>, userDir: string)
      requires LinesOk(lines) && ReflectsScalars(lines, userDir)
      ensures ScalarsSaidBy(lines, userDir) && Int32(numberOfReaders) && Int32(numberOfWriters)
    {
      hide Lookup, Says, SaysInt, LinesOk, HasKey;
      LookupExact(lines, "server", serverAdd);
      LookupIntExact(lines, "server.port", serverPort);
      LookupIntExact(lines, "rmiregistry.port", rmiPort);
      LookupIntExact(lines, "numberOfReaders", numberOfReaders);
      LookupIntExact(lines, "numberOfWriters", numberOfWriters);
      LookupIntExact(lines, "numberOfAccesses", numberOfAccess);
      NoKey(lines, "path");
      LookupExact(lines, "path", path);
    }

    lemma ReadersAreSaid(lines: seq<string>)
      requires LinesOk(lines) && ReflectsReaders(lines) && Int32(numberOfReaders)
      ensures forall i: nat :: i < numberOfReaders ==>
                SaysEntry(lines, "reader", i, Host(readersUsername[i], readersAdd[i], readersPass[i]))
    {
      hide HostAt, SaysEntry, LinesOk;
      forall i: nat | i < numberOfReaders
        ensures SaysEntry(lines, "reader", i, Host(readersUsername[i], readersAdd[i], readersPass[i]))
      {
        assert EntryAt(lines, "reader", i, readersUsername[i], readersAdd[i], readersPass[i]);
        HostAtExact(lines, "reader", i, Host(readersUsername[i], readersAdd[i], readersPass[i]));
      }
    }

    lemma WritersAreSaid(lines: seq<string>)
      requires LinesOk(lines) && ReflectsWriters(lines) && Int32(numberOfWriters)
      ensures forall i: nat :: i < numberOfWriters ==>
                SaysEntry(lines, "writer", i, Host(writersUsername[i], writersAdd[i], writersPass[i]))
    {
      hide HostAt, SaysEntry, LinesOk;
      forall i: nat | i < numberOfWriters
        ensures SaysEntry(lines, "writer", i, Host(writersUsername[i], writersAdd[i], writersPass[i]))
      {
        assert EntryAt(lines, "writer", i, writersUsername[i], writersAdd[i], writersPass[i]);
        HostAtExact(lines, "writer", i, Host(writersUsername[i], writersAdd[i], writersPass[i]));
      }
    }

    lemma FieldsAreSaid(lines: seq<string>, userDir: string)
      requires LinesOk(lines) && ReflectsScalars(lines, userDir) && ReflectsReaders(lines) && ReflectsWriters(lines)
      ensures SaidBy(lines, userDir)
    {
      hide ReflectsScalars, ScalarsSaidBy, EntryAt, SaysEntry, LinesOk, Wrap;
      ScalarsAreSaid(lines, userDir);
      ReadersAreSaid(lines);
      WritersAreSaid(lines);
    }

    /** The reader reports an error exactly if the file cannot be read or is not
        acceptable, and otherwise its fields say what the file says: every value is that
        of the last line with its key. */
    constructor (file: Option<seq<string>>, rmi: bool, userDir: string)
      ensures this.rmi == rmi && (error <==> file.None? || !Acceptable(file.value, rmi))
      ensures error <==> file.None? || !Complete(file.value, rmi)
      ensures !error ==>
                ReflectsScalars(file.value, userDir) && ReflectsReaders(file.value) && ReflectsWriters(file.value)
      ensures !error ==> SaidBy(file.value, userDir)
    {
      hide Acceptable, Complete, ReflectsScalars, ReflectsReaders, ReflectsWriters, SaidBy;
      this.rmi := rmi;
      error := false;
      serverAdd, serverPort, rmiPort, path := "", 0, 0, "";
      numberOfReaders, numberOfWriters, numberOfAccess := 0, 0, 0;
      readersUsername, readersAdd, readersPass := new string[0], new string[0], new string[0];
      writersUsername, writersAdd, writersPass := new string[0], new string[0], new string[0];
      readersIDs, writersIDs := new int[0], new int[0];
      new;
      match file
      case None => error := true;
      case Some(lines) =>
        var ok := Load(lines, userDir);
        error := !ok;
        AcceptableExact(lines, rmi);
        if ok {
          WellFormed(lines, rmi);
          FieldsAreSaid(lines, userDir);
        }
    }

    method Load(lines: seq<string>, userDir: string) returns (ok: bool)
      modifies this
      ensures ok <==> Acceptable(lines, rmi)
      ensures ok ==> ReflectsScalars(lines, userDir) && ReflectsReaders(lines) && ReflectsWriters(lines)
    {
      hide HostAt, Lookup, LookupInt, ScalarsOk, HostsOk, EntryAt, Represents;
      hide ReflectsScalars, ReflectsReaders, ReflectsWriters;
      var properties;
      ok, properties := ReadProperties(lines);
      if !ok { return; }
      ok := ReadScalars(properties, lines, userDir);
      if !ok { return; }
      ok := ReadReaders(properties, lines);
      if !ok { return; }
      ok := ReadWriters(properties, lines);
    }

    /** The required keys, in the source's order. */
    method ReadScalars(properties: map<string, string>, ghost lines: seq<string>, userDir: string) returns (ok: bool)
      requires LinesOk(lines) && Represents(properties, lines)
      modifies `rmiPort, `serverAdd, `serverPort, `numberOfReaders, `numberOfWriters, `numberOfAccess, `path
      ensures ok <==> ScalarsOk(lines, rmi)
      ensures ok ==> ReflectsScalars(lines, userDir) && Int32(numberOfReaders)
      ensures ok ==> LookupInt(lines, "numberOfReaders") == Some(numberOfReaders)
      ensures ok ==> LookupInt(lines, "numberOfWriters") == Some(numberOfWriters)
    {
      ok := true;
      if rmi {
        ok, rmiPort := ReadInt(properties, lines, "rmiregistry.port");
      }
      if ok {
        ok, serverAdd := ReadText(properties, lines, "server");
      }
      if ok {
        ok, serverPort := ReadInt(properties, lines, "server.port");
      }
      if ok {
        ok, numberOfReaders := ReadInt(properties, lines, "numberOfReaders");
      }
      if ok {
        ok, numberOfWriters := ReadInt(properties, lines, "numberOfWriters");
      }
      if ok {
        ok, numberOfAccess := ReadInt(properties, lines, "numberOfAccesses");
      }
      if ok {
        var found, dir := ReadText(properties, lines, "path");
        path := if found then dir else userDir;
      }
    }

    /** The readers' arrays; a negative count throws. */
    method ReadReaders(properties: map<string, string>, ghost lines: seq<string>) returns (ok: bool)
      requires LinesOk(lines) && Represents(properties, lines) && Int32(numberOfReaders)
      modifies `readersUsername, `readersAdd, `readersPass, `readersIDs
      ensures ok <==> numberOfReaders >= 0 && HostsOk(lines, "reader", numberOfReaders)
      ensures ok ==> ReflectsReaders(lines) && fresh({readersUsername, readersAdd, readersPass}) && fresh(readersIDs)
    {
      if numberOfReaders < 0 {
        return false;
      }
      readersUsername := new string[numberOfReaders];
      readersIDs := new int[numberOfReaders];
      readersAdd := new string[numberOfReaders];
      readersPass := new string[numberOfReaders];
      ok := ReadHosts(properties, lines, "reader", numberOfReaders, 1,
                      readersUsername, readersIDs, readersAdd, readersPass);
    }

    /** The writers' arrays; the names' array has the length of the readers'. */
    method ReadWriters(properties: map<string, string>, ghost lines: seq<string>) returns (ok: bool)
      requires LinesOk(lines) && Represents(properties, lines) && numberOfReaders >= 0
      modifies `writersUsername, `writersAdd, `writersPass, `writersIDs
      ensures ok <==> 0 <= numberOfWriters <= numberOfReaders && HostsOk(lines, "writer", numberOfWriters)
      ensures ok ==> ReflectsWriters(lines)
    {
      if numberOfWriters < 0 {
        return false;
      }
      writersUsername := new string[numberOfReaders];
      writersIDs := new int[numberOfWriters];
      writersAdd := new string[numberOfWriters];
      writersPass := new string[numberOfWriters];
      ok := ReadHosts(properties, lines, "writer", numberOfWriters, 1 + numberOfWriters,
                      writersUsername, writersIDs, writersAdd, writersPass);
    }
  }
}
