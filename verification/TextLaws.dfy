/** What parsing, splitting, trimming and reading do with every text, well-formed or not. */
module TextLaws {
  import opened Wrappers
  import opened Text

  // ---------- decimal texts ----------

  /** Digits without a leading zero. */
  predicate Canonical(d: string) {
    d != "" && (forall c :: c in d ==> IsDigit(c)) && (|d| > 1 ==> d[0] != '0')
  }

  function Zeros(k: nat): string {
    seq(k, _ => '0')
  }

  /** The texts `Integer.parseInt` accepts for `x`: an optional sign, any number of
      leading zeros, and the digits of the number. */
  ghost predicate Denotes(s: string, x: int) {
    exists sign: string, k: nat, n: nat ::
      s == sign + Zeros(k) + PrintNat(n) && IsSigned(sign, n, x)
  }

  predicate IsSigned(sign: string, n: nat, x: int) {
    (sign == "-" && x == -(n as int)) || ((sign == "" || sign == "+") && x == n)
  }

  lemma DigitChar(c: char)
    requires IsDigit(c)
    ensures DIGITS[DigitValue(c)] == c && PrintNat(DigitValue(c)) == [c]
  {
    var n := DigitValue(c);
    assert n == 0 || n == 1 || n == 2 || n == 3 || n == 4 || n == 5 || n == 6 || n == 7 || n == 8 || n == 9;
  }

  /** A string of digits is its number's digits after some zeros. */
  lemma {:induction false} DigitsShape(d: string) returns (k: nat)
    requires d != "" && DigitsValue(d).Some?
    ensures d == Zeros(k) + PrintNat(DigitsValue(d).value)
  {
    hide PrintNat;
    var front, c := d[..|d| - 1], d[|d| - 1];
    DigitChar(c);
    assert d == front + [c];
    if front == "" {
      k := 0;
      assert d == Zeros(0) + PrintNat(DigitValue(c));
    } else {
      k := DigitsShape(front);
      var m := DigitsValue(front).value;
      if m == 0 {
        ZeroIsPrinted();
        assert Zeros(k + 1) == Zeros(k) + "0";
        k := k + 1;
      } else {
        NextDigit(m, DigitValue(c));
      }
    }
  }

  lemma ZeroIsPrinted()
    ensures PrintNat(0) == "0"
  {
  }

  lemma NextDigit(m: nat, v: nat)
    requires m > 0 && v < 10
    ensures PrintNat(10 * m + v) == PrintNat(m) + [DIGITS[v]]
  {
    var n := 10 * m + v;
    assert n / 10 == m && n % 10 == v;
  }

  /** Zeros in front do not change the number. */
  lemma {:induction false} ZerosBefore(k: nat, d: string)
    requires DigitsValue(d).Some?
    ensures DigitsValue(Zeros(k) + d) == DigitsValue(d)
  {
    var s := Zeros(k) + d;
    if d == "" {
      if k > 0 {
        ZerosBefore(k - 1, "");
        assert s[..k - 1] == Zeros(k - 1) + "";
      }
    } else {
      ZerosBefore(k, d[..|d| - 1]);
      assert s[..|s| - 1] == Zeros(k) + d[..|d| - 1];
    }
  }

  lemma {:induction false} AllDigits(d: string)
    requires DigitsValue(d).Some?
    ensures forall c :: c in d ==> IsDigit(c)
  {
    if d != "" {
      AllDigits(d[..|d| - 1]);
      assert d == d[..|d| - 1] + [d[|d| - 1]];
    }
  }

  /** `parseInt` accepts exactly the texts that denote a 32-bit int, as that int. */
  lemma ParseIntExact(s: string, x: int)
    ensures ParseInt(s) == Some(x) <==> Int32(x) && Denotes(s, x)
  {
    if ParseInt(s) == Some(x) {
      ParsedIsDenoted(s, x);
    }
    if Int32(x) && Denotes(s, x) {
      DenotedParses(s, x);
    }
  }

  lemma ParsedIsDenoted(s: string, x: int)
    requires ParseInt(s) == Some(x)
    ensures Denotes(s, x)
  {
    hide PrintNat, DigitsValue, Zeros;
    var signed := s[0] == '-' || s[0] == '+';
    var sign, d := if signed then s[..1] else "", if signed then s[1..] else s;
    var k := DigitsShape(d);
    assert s == sign + Zeros(k) + PrintNat(DigitsValue(d).value);
    assert IsSigned(sign, DigitsValue(d).value, x);
  }

  lemma DenotedParses(s: string, x: int)
    requires Int32(x) && Denotes(s, x)
    ensures ParseInt(s) == Some(x)
  {
    hide PrintNat, DigitsValue, ParseInt, Zeros;
    var sign: string, k: nat, n: nat :| s == sign + Zeros(k) + PrintNat(n) && IsSigned(sign, n, x);
    PrintNatParses(n);
    ZerosBefore(k, PrintNat(n));
    assert s == sign + (Zeros(k) + PrintNat(n));
    SignedParses(sign, Zeros(k) + PrintNat(n), n, x);
  }

  lemma SignedParses(sign: string, d: string, n: nat, x: int)
    requires d != "" && DigitsValue(d) == Some(n) && IsSigned(sign, n, x) && Int32(x)
    ensures ParseInt(sign + d) == Some(x)
  {
    hide DigitsValue;
    AllDigits(d);
    assert d[0] in d;
    if sign == "" {
      assert sign + d == d;
    } else {
      assert (sign + d)[1..] == d;
    }
  }

  lemma {:induction false} PrintNatCanonical(n: nat)
    ensures Canonical(PrintNat(n)) && (PrintNat(n)[0] == '0' ==> n == 0)
  {
    PrintNatParses(n);
    if n >= 10 {
      PrintNatCanonical(n / 10);
      assert PrintNat(n)[0] == PrintNat(n / 10)[0];
    }
  }

  lemma ZeroFirst(k: nat, d: string)
    requires k > 0
    ensures (Zeros(k) + d)[0] == '0'
  {
  }

  /** The decimal text of a number is the only one without sign and leading zeros. */
  lemma DecimalExact(i: nat, d: string)
    requires Int32(i)
    ensures d == PrintInt(i) <==> Canonical(d) && ParseInt(d) == Some(i)
  {
    PrintNatCanonical(i);
    PrintIntParses(i);
    if Canonical(d) && ParseInt(d) == Some(i) {
      assert d[0] in d;
      var k := DigitsShape(d);
      PrintNatCanonical(i);
      if k > 0 { ZeroFirst(k, PrintNat(i)); }
      assert Zeros(0) + PrintNat(i) == PrintNat(i);
    }
  }

  /** Negative numbers are printed as a minus sign and the digits. */
  lemma NegativeDecimal(x: int)
    requires x < 0
    ensures PrintInt(x)[0] == '-' && Canonical(PrintInt(x)[1..]) && PrintInt(x)[1..] == PrintInt(-x)
  {
    hide PrintNat;
    PrintNatCanonical(-x);
  }

  // ---------- split ----------

  function Empties(k: nat): seq<string> {
    seq(k, _ => "")
  }

  lemma {:induction false} JoinOfPieces(s: string)
    ensures NoSpaces(Pieces(s)) && Join(Pieces(s)) == s
    decreases |s|
  {
    hide Join, IndexOf;
    var k := IndexOf(s, ' ');
    if k == -1 {
      JoinOne(s);
    } else {
      var ps := Pieces(s[k + 1..]);
      JoinOfPieces(s[k + 1..]);
      JoinCons(s[..k], ps);
      assert s == s[..k] + " " + s[k + 1..];
    }
  }

  lemma JoinOne(p: string)
    ensures Join([p]) == p
  {
  }

  lemma JoinCons(p: string, ps: seq<string>)
    requires ps != []
    ensures Join([p] + ps) == p + " " + Join(ps)
  {
    assert ([p] + ps)[1..] == ps;
  }

  lemma OneMoreEmpty(ps: seq<string>, k: nat)
    ensures ps + Empties(k) + [""] == ps + Empties(k + 1)
  {
  }

  lemma {:induction false} DropsEmpties(ps: seq<string>) returns (k: nat)
    ensures ps == DropTrailingEmpty(ps) + Empties(k)
    ensures DropTrailingEmpty(ps) == [] || DropTrailingEmpty(ps)[|DropTrailingEmpty(ps)| - 1] != ""
  {
    if ps != [] && ps[|ps| - 1] == "" {
      var front := ps[..|ps| - 1];
      var j := DropsEmpties(front);
      k := j + 1;
      assert ps == front + [""];
      OneMoreEmpty(DropTrailingEmpty(front), j);
    } else {
      k := 0;
      assert Empties(0) == [];
    }
  }

  lemma {:induction false} DropOfEmpties(ps: seq<string>, k: nat)
    requires ps == [] || ps[|ps| - 1] != ""
    ensures DropTrailingEmpty(ps + Empties(k)) == ps
  {
    var qs := ps + Empties(k);
    if k > 0 {
      DropOfEmpties(ps, k - 1);
      assert qs[..|qs| - 1] == ps + Empties(k - 1);
    } else {
      assert qs == ps;
    }
  }

  /** The words of a text with a space: none contains a space, the last is not empty,
      and the text is these words and some empty ones, one space between any two. */
  ghost predicate AreWords(ps: seq<string>, s: string) {
    && NoSpaces(ps) && (ps == [] || ps[|ps| - 1] != "")
    && exists k: nat :: AreAllPieces(ps, k, s)
  }

  ghost predicate AreAllPieces(ps: seq<string>, k: nat, s: string) {
    ps + Empties(k) != [] && Join(ps + Empties(k)) == s
  }

  lemma {:induction false} NoSpaceIn(ps: seq<string>, k: nat)
    requires NoSpaces(ps)
    ensures NoSpaces(ps + Empties(k))
  {
  }

  /** `split(" ")` is exact: the words of the text, and a text without space is one word. */
  lemma SplitExact(s: string, ps: seq<string>)
    ensures Split(s) == ps <==> if ' ' in s then AreWords(ps, s) else ps == [s]
  {
    if ' ' in s {
      SplitGivesWords(s);
      if AreWords(ps, s) {
        WordsAreUnique(s, ps);
      }
    }
  }

  lemma SplitGivesWords(s: string)
    requires ' ' in s
    ensures AreWords(Split(s), s)
  {
    hide Pieces, Join, DropTrailingEmpty;
    JoinOfPieces(s);
    var k := DropsEmpties(Pieces(s));
    assert AreAllPieces(Split(s), k, s);
    forall i | 0 <= i < |Split(s)| ensures ' ' !in Split(s)[i] {
      assert Split(s)[i] == Pieces(s)[i];
    }
  }

  lemma WordsAreUnique(s: string, ps: seq<string>)
    requires ' ' in s && AreWords(ps, s)
    ensures Split(s) == ps
  {
    hide Pieces, Join, DropTrailingEmpty;
    var j: nat :| AreAllPieces(ps, j, s);
    NoSpaceIn(ps, j);
    PiecesOfJoin(ps + Empties(j));
    DropOfEmpties(ps, j);
  }

  /** The text starts with the words `ws`: they are followed by a space or by nothing. */
  ghost predicate StartsWith(s: string, ws: seq<string>)
    requires ws != []
  {
    NoSpaces(ws) && exists rest :: Continues(s, ws, rest)
  }

  ghost predicate Continues(s: string, ws: seq<string>, rest: string)
    requires ws != []
  {
    (rest == "" || rest[0] == ' ') && s == Join(ws) + rest
  }

  lemma {:induction false} JoinAppend(ps: seq<string>, qs: seq<string>)
    requires ps != [] && qs != []
    ensures Join(ps + qs) == Join(ps) + " " + Join(qs)
  {
    if |ps| > 1 {
      assert (ps + qs)[1..] == ps[1..] + qs;
      JoinAppend(ps[1..], qs);
    } else {
      assert (ps + qs)[1..] == qs;
    }
  }

  lemma {:induction false} DropKeeps(ws: seq<string>, qs: seq<string>)
    requires ws != [] && ws[|ws| - 1] != ""
    ensures ws <= DropTrailingEmpty(ws + qs)
  {
    var all := ws + qs;
    if qs != [] {
      DropKeeps(ws, qs[..|qs| - 1]);
      assert all[..|all| - 1] == ws + qs[..|qs| - 1];
    } else {
      assert all == ws;
    }
  }

  lemma {:induction false} DropIsPrefix(ps: seq<string>)
    ensures DropTrailingEmpty(ps) <= ps
  {
    if ps != [] && ps[|ps| - 1] == "" {
      DropIsPrefix(ps[..|ps| - 1]);
    }
  }

  lemma SplitIsDropped(s: string)
    ensures Split(s) <= Pieces(s)
    ensures Pieces(s) == Split(s) || Split(s) == DropTrailingEmpty(Pieces(s))
  {
    DropIsPrefix(Pieces(s));
  }

  /** The first words of a text are the first pieces that split finds. */
  lemma FirstWords(s: string, ws: seq<string>)
    requires ws != [] && ws[|ws| - 1] != ""
    ensures StartsWith(s, ws) <==> ws <= Split(s)
  {
    hide Pieces, Join, DropTrailingEmpty, Split;
    SplitIsDropped(s);
    JoinOfPieces(s);
    if StartsWith(s, ws) {
      var rest :| Continues(s, ws, rest);
      WordsAreSplit(s, ws, rest);
    }
    if ws <= Split(s) {
      SplitAreWords(s, ws);
    }
  }

  lemma WordsAreSplit(s: string, ws: seq<string>, rest: string)
    requires ws != [] && ws[|ws| - 1] != "" && NoSpaces(ws) && Continues(s, ws, rest)
    ensures ws <= Split(s)
  {
    hide Pieces, Join, DropTrailingEmpty;
    if rest == "" {
      assert s == Join(ws);
      SplitOfJoin(ws);
    } else {
      var qs := Pieces(rest[1..]);
      JoinOfPieces(rest[1..]);
      JoinAppend(ws, qs);
      assert rest == " " + rest[1..];
      assert s == Join(ws + qs);
      PiecesOfJoin(ws + qs);
      DropKeeps(ws, qs);
      assert s[|Join(ws)|] == ' ';
    }
  }

  lemma SplitAreWords(s: string, ws: seq<string>)
    requires ws != [] && ws <= Split(s)
    ensures StartsWith(s, ws)
  {
    hide Pieces, Join, DropTrailingEmpty, Split;
    SplitIsDropped(s);
    JoinOfPieces(s);
    var ps := Pieces(s);
    var qs := ps[|ws|..];
    assert ps == ws + qs;
    forall i | 0 <= i < |ws| ensures ' ' !in ws[i] {
      assert ws[i] == ps[i];
    }
    if qs == [] {
      assert ws == ps;
      assert Join(ws) + "" == s;
      assert Continues(s, ws, "");
    } else {
      JoinAppend(ws, qs);
      assert Join(ws) + " " + Join(qs) == Join(ws) + (" " + Join(qs));
      assert Continues(s, ws, " " + Join(qs));
    }
  }

  // ---------- trim and readLine ----------

  predicate Blank(s: string) {
    forall c :: c in s ==> !Visible(c)
  }

  /** Nothing at either end is left to trim. */
  predicate Trimmed(t: string) {
    t == "" || (Visible(t[0]) && Visible(t[|t| - 1]))
  }

  ghost predicate IsTrimOf(t: string, s: string) {
    Trimmed(t) && exists a, b :: Surrounds(a, b, t, s)
  }

  ghost predicate Surrounds(a: string, b: string, t: string, s: string) {
    Blank(a) && Blank(b) && s == a + t + b
  }

  lemma {:induction false} TrimLeftSplits(s: string) returns (a: string)
    ensures Blank(a) && s == a + TrimLeft(s) && (TrimLeft(s) == "" || Visible(TrimLeft(s)[0]))
  {
    if s != "" && !Visible(s[0]) {
      var b := TrimLeftSplits(s[1..]);
      a := [s[0]] + b;
    } else {
      a := "";
    }
  }

  lemma {:induction false} TrimRightSplits(s: string) returns (b: string)
    ensures Blank(b) && s == TrimRight(s) + b && (TrimRight(s) == "" || Visible(TrimRight(s)[|TrimRight(s)| - 1]))
  {
    if s != "" && !Visible(s[|s| - 1]) {
      var a := TrimRightSplits(s[..|s| - 1]);
      b := a + [s[|s| - 1]];
      assert s == s[..|s| - 1] + [s[|s| - 1]];
    } else {
      b := "";
    }
  }

  lemma TrimSplits(s: string)
    ensures IsTrimOf(Trim(s), s)
  {
    var a := TrimLeftSplits(s);
    var l := TrimLeft(s);
    var b := TrimRightSplits(l);
    var t := TrimRight(l);
    if t != "" { assert l[0] == t[0]; }
    assert Surrounds(a, b, t, s);
  }

  /** Where the visible part of a text begins and ends. */
  lemma Extent(a: string, b: string, t: string, s: string)
    requires Surrounds(a, b, t, s) && Trimmed(t)
    ensures |a| + |t| <= |s| && s[|a|..|a| + |t|] == t
    ensures t != "" ==> Visible(s[|a|]) && Visible(s[|a| + |t| - 1])
    ensures forall i :: 0 <= i < |a| || |a| + |t| <= i < |s| ==> !Visible(s[i])
  {
    forall i | 0 <= i < |a| ensures !Visible(s[i]) {
      assert s[i] == a[i];
    }
    forall i | |a| + |t| <= i < |s| ensures !Visible(s[i]) {
      assert s[i] == b[i - |a| - |t|];
    }
  }

  /** Two ways to take blanks off a text leave the same. */
  lemma OneTrim(a: string, b: string, t: string, a': string, b': string, t': string, s: string)
    requires Surrounds(a, b, t, s) && Trimmed(t) && Surrounds(a', b', t', s) && Trimmed(t')
    ensures t == t'
  {
    hide Surrounds, Visible;
    Extent(a, b, t, s);
    Extent(a', b', t', s);
    if t != "" && t' != "" {
      assert |a| == |a'|;
      assert |a| + |t| == |a'| + |t'|;
    }
  }

  /** `trim()` is exact: what is left when the blanks on both sides are gone. */
  lemma TrimExact(s: string, t: string)
    ensures Trim(s) == t <==> IsTrimOf(t, s)
  {
    hide Trim;
    TrimSplits(s);
    if IsTrimOf(t, s) {
      var a, b :| Surrounds(a, b, t, s);
      var a', b' :| Surrounds(a', b', Trim(s), s);
      OneTrim(a, b, t, a', b', Trim(s), s);
    }
  }

  predicate IsBreak(c: char) {
    c == '\n' || c == '\r'
  }

  /** The first line of what arrives: no line break in it, and one after it or nothing. */
  predicate IsFirstLine(line: string, s: string) {
    && line <= s && (forall c :: c in line ==> !IsBreak(c))
    && (|line| < |s| ==> IsBreak(s[|line|]))
  }

  lemma {:induction false} FirstLineFirst(s: string)
    ensures IsFirstLine(FirstLine(s), s)
  {
    if s != "" && !IsBreak(s[0]) {
      FirstLineFirst(s[1..]);
      assert s == [s[0]] + s[1..];
    }
  }

  /** `readLine` is exact: nothing if nothing arrives, and else the first line. */
  lemma ReadLineExact(s: string, line: string)
    ensures ReadLine(s) == None <==> s == ""
    ensures ReadLine(s) == Some(line) <==> s != "" && IsFirstLine(line, s)
  {
    FirstLineFirst(s);
    if IsFirstLine(line, s) {
      NoBreakIn(line, s);
      NoBreakIn(FirstLine(s), s);
      assert |line| == |FirstLine(s)|;
    }
  }

  lemma NoBreakIn(line: string, s: string)
    requires IsFirstLine(line, s)
    ensures line == s[..|line|] && forall i :: 0 <= i < |line| ==> !IsBreak(s[i])
  {
    forall i | 0 <= i < |line| ensures !IsBreak(s[i]) {
      assert s[i] == line[i];
    }
  }
}
