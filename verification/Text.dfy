/** The pieces of the Java library the codecs rely on: decimal ints, split, trim, indexOf. */
module Text {
  import opened Wrappers

  const INT_MIN: int := -0x8000_0000
  const INT_MAX: int := 0x7FFF_FFFF

  predicate Int32(x: int) {
    INT_MIN <= x <= INT_MAX
  }

  // ---------- decimal ints ----------

  const DIGITS: string := "0123456789"

  predicate IsDigit(c: char) {
    '0' <= c <= '9'
  }

  function DigitValue(c: char): nat
    requires IsDigit(c)
  {
    c as int - '0' as int
  }

  function PrintNat(n: nat): string {
    if n < 10 then [DIGITS[n]] else PrintNat(n / 10) + [DIGITS[n % 10]]
  }

  /** `String.valueOf(int)` */
  function PrintInt(x: int): string {
    if x < 0 then "-" + PrintNat(-x) else PrintNat(x)
  }

  /** The number a string of digits denotes; None if some character is no digit. */
  function DigitsValue(s: string): Option<nat> {
    if s == "" then Some(0)
    else if !IsDigit(s[|s| - 1]) then None
    else
      match DigitsValue(s[..|s| - 1])
      case None => None
      case Some(n) => Some(10 * n + DigitValue(s[|s| - 1]))
  }

  /** `Integer.parseInt`: an optional sign, at least one digit, a value in range. */
  function ParseInt(s: string): (r: Option<int>)
    ensures r.Some? ==> Int32(r.value)
  {
    if s == "" then None
    else
      var signed := s[0] == '-' || s[0] == '+';
      var digits := if signed then s[1..] else s;
      if digits == "" then None
      else
        match DigitsValue(digits)
        case None => None
        case Some(n) =>
          var x := if s[0] == '-' then -(n as int) else n as int;
          if Int32(x) then Some(x) else None
  }

  lemma {:induction false} PrintNatParses(n: nat)
    ensures DigitsValue(PrintNat(n)) == Some(n)
    ensures PrintNat(n) != "" && forall c :: c in PrintNat(n) ==> IsDigit(c)
  {
    var s := PrintNat(n);
    if n < 10 {
      assert s[..|s| - 1] == "";
    } else {
      PrintNatParses(n / 10);
      assert s[..|s| - 1] == PrintNat(n / 10);
    }
  }

  /** Printing and parsing an int are inverse, over the whole 32-bit range. */
  lemma PrintIntParses(x: int)
    requires Int32(x)
    ensures ParseInt(PrintInt(x)) == Some(x)
  {
    PrintNatParses(if x < 0 then -x else x);
    if x < 0 {
      assert PrintInt(x)[1..] == PrintNat(-x);
    } else {
      assert PrintNat(x)[0] in PrintNat(x);
    }
  }

  function Pow10(k: nat): nat {
    if k == 0 then 1 else 10 * Pow10(k - 1)
  }

  lemma {:induction false} PrintNatLength(n: nat, k: nat)
    requires n < Pow10(k) && k >= 1
    ensures |PrintNat(n)| <= k
  {
    if n >= 10 {
      PrintNatLength(n / 10, k - 1);
    }
  }

  /** A character that is neither a space nor a control character. */
  predicate Visible(c: char) {
    c > ' '
  }

  /** A printed int has 1 to 11 characters, none of which split or trim would touch. */
  lemma PrintIntShape(x: int)
    requires Int32(x)
    ensures 1 <= |PrintInt(x)| <= 11
    ensures forall c :: c in PrintInt(x) ==> Visible(c)
  {
    var n := if x < 0 then -x else x;
    assert Pow10(10) == 10_000_000_000 by {
      assert Pow10(5) == 100_000;
      assert Pow10(8) == 100_000_000;
    }
    PrintNatLength(n, 10);
    PrintNatParses(n);
  }

  // ---------- indexOf, split, trim, readLine ----------

  /** `s.indexOf(c)`: the first occurrence, or -1. */
  function IndexOf(s: string, c: char): (k: int)
    ensures -1 <= k < |s|
    ensures k == -1 ==> c !in s
    ensures k >= 0 ==> s[k] == c && c !in s[..k]
  {
    if s == "" then -1
    else if s[0] == c then 0
    else
      var k := IndexOf(s[1..], c);
      if k == -1 then -1
      else
        assert s[..k + 1] == [s[0]] + s[1..][..k];
        k + 1
  }

  /** indexOf is determined by its specification. */
  lemma IndexOfIs(s: string, c: char, k: nat)
    requires k < |s| && s[k] == c && c !in s[..k]
    ensures IndexOf(s, c) == k
  {
    var j := IndexOf(s, c);
    assert forall m :: 0 <= m < k ==> s[m] == s[..k][m] != c;
    assert forall m :: 0 <= m < j ==> s[m] == s[..j][m] != c;
  }

  function Pieces(s: string): (ps: seq<string>)
    ensures ps != []
    decreases |s|
  {
    var k := IndexOf(s, ' ');
    if k == -1 then [s] else [s[..k]] + Pieces(s[k + 1..])
  }

  function DropTrailingEmpty(ps: seq<string>): seq<string> {
    if ps != [] && ps[|ps| - 1] == "" then DropTrailingEmpty(ps[..|ps| - 1]) else ps
  }

  /** `s.split(" ")`: trailing empty pieces are dropped, unless there is no space at all. */
  function Split(s: string): seq<string> {
    if ' ' !in s then [s] else DropTrailingEmpty(Pieces(s))
  }

  function Join(ps: seq<string>): string
    requires ps != []
  {
    if |ps| == 1 then ps[0] else ps[0] + " " + Join(ps[1..])
  }

  predicate NoSpaces(ps: seq<string>) {
    forall i :: 0 <= i < |ps| ==> ' ' !in ps[i]
  }

  /** What indexOf finds after a first part without a space. */
  lemma SpaceAfter(p: string, rest: string)
    requires ' ' !in p
    ensures IndexOf(p + " " + rest, ' ') == |p|
    ensures (p + " " + rest)[..|p|] == p && (p + " " + rest)[|p| + 1..] == rest
  {
    var s := p + " " + rest;
    assert s[..|p|] == p;
    IndexOfIs(s, ' ', |p|);
  }

  lemma {:induction false} PiecesOfJoin(ps: seq<string>)
    requires ps != [] && NoSpaces(ps)
    ensures Pieces(Join(ps)) == ps
  {
    if |ps| > 1 {
      PiecesOfJoin(ps[1..]);
      SpaceAfter(ps[0], Join(ps[1..]));
    }
  }

  /** Splitting undoes joining, if no part holds a space and the last is not empty. */
  lemma {:induction false} SplitOfJoin(ps: seq<string>)
    requires ps != [] && NoSpaces(ps) && ps[|ps| - 1] != ""
    ensures Split(Join(ps)) == ps
  {
    PiecesOfJoin(ps);
  }

  function TrimLeft(s: string): string {
    if s != "" && !Visible(s[0]) then TrimLeft(s[1..]) else s
  }

  function TrimRight(s: string): string {
    if s != "" && !Visible(s[|s| - 1]) then TrimRight(s[..|s| - 1]) else s
  }

  /** `s.trim()` */
  function Trim(s: string): string {
    TrimRight(TrimLeft(s))
  }

  /** A visible string keeps its characters; blanks before it and a line feed after it go. */
  lemma {:induction false} TrimBlanks(blanks: string, s: string, end: string)
    requires s != "" && (forall c :: c in s ==> Visible(c)) && (forall c :: c in blanks ==> !Visible(c))
    requires end == "" || end == "\n"
    ensures Trim(blanks + s + end) == s
  {
    var t := blanks + s + end;
    if blanks == "" {
      assert t[0] == s[0] && s[0] in s;
      assert s[|s| - 1] in s;
      assert TrimLeft(t) == t;
      assert TrimRight(s) == s;
      if end == "" {
        assert t == s;
      } else {
        assert t[|t| - 1] == '\n' && t[..|t| - 1] == s;
      }
    } else {
      assert t[0] == blanks[0] && blanks[0] in blanks;
      assert t[1..] == blanks[1..] + s + end;
      assert forall c :: c in blanks[1..] ==> c in blanks;
      TrimBlanks(blanks[1..], s, end);
    }
  }

  /** `BufferedReader.readLine` on everything the peer sends before it closes. */
  function ReadLine(stream: string): Option<string> {
    if stream == "" then None else Some(FirstLine(stream))
  }

  function FirstLine(s: string): string {
    if s == "" || s[0] == '\n' || s[0] == '\r' then "" else [s[0]] + FirstLine(s[1..])
  }

  lemma {:induction false} FirstLineOf(s: string, rest: string)
    requires forall c :: c in s ==> c != '\n' && c != '\r'
    requires rest != "" && rest[0] == '\n'
    ensures FirstLine(s + rest) == s
  {
    if s != "" {
      assert s[0] in s && forall c :: c in s[1..] ==> c in s;
      assert (s + rest)[1..] == s[1..] + rest;
      FirstLineOf(s[1..], rest);
    } else {
      assert s + rest == rest;
    }
  }
}
