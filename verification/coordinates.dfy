/**
 * The `(row, col)` record that names a cell of the board, its textual form
 * and the constructor that parses the two components from strings.
 */
module Coords {
  import opened Wrappers

  /** A cell of the board; record equality is component-wise value equality. */
  datatype Coordinates = Coordinates(row: int, col: int)

  /** Row-major order: by row, then by column. */
  predicate RowMajorLess(a: Coordinates, b: Coordinates) {
    a.row < b.row || (a.row == b.row && a.col < b.col)
  }

  /** Every element strictly precedes every later one in row-major order. */
  predicate RowMajorSorted(s: seq<Coordinates>) {
    forall i, j :: 0 <= i < j < |s| ==> RowMajorLess(s[i], s[j])
  }

  /** Concatenating two sorted runs, the first wholly before the second, stays sorted. */
  lemma SortedAppend(a: seq<Coordinates>, b: seq<Coordinates>)
    requires RowMajorSorted(a) && RowMajorSorted(b)
    requires forall x, y :: x in a && y in b ==> RowMajorLess(x, y)
    ensures RowMajorSorted(a + b)
  {
    forall i, j | 0 <= i < j < |a + b| ensures RowMajorLess((a + b)[i], (a + b)[j]) {
      if j >= |a| && i < |a| {
        assert (a + b)[i] in a && (a + b)[j] in b;
      }
    }
  }

  /** Every cell of `cells` moved by `dr` rows and `dc` columns. */
  function Shift(cells: seq<Coordinates>, dr: int, dc: int): (r: seq<Coordinates>)
    ensures |r| == |cells|
    ensures forall i :: 0 <= i < |r| ==> r[i] == Coordinates(cells[i].row + dr, cells[i].col + dc)
  {
    seq(|cells|, i requires 0 <= i < |cells| => Coordinates(cells[i].row + dr, cells[i].col + dc))
  }

  lemma SameCellsBothEmpty(s: seq<Coordinates>, t: seq<Coordinates>)
    requires forall x :: x in s <==> x in t
    ensures s == [] <==> t == []
  {
    if s != [] { assert s[0] in t; }
    if t != [] { assert t[0] in s; }
  }

  /** The heads of two sorted sequences with the same cells are both the row-major minimum. */
  lemma SortedHeads(s: seq<Coordinates>, t: seq<Coordinates>)
    requires RowMajorSorted(s) && RowMajorSorted(t) && s != [] && t != []
    requires forall x :: x in s <==> x in t
    ensures s[0] == t[0]
  {
    assert t[0] in s && s[0] in t;
    var i :| 0 <= i < |s| && s[i] == t[0];
    var j :| 0 <= j < |t| && t[j] == s[0];
  }

  /** Two row-major sorted sequences holding the same cells are the same sequence. */
  lemma {:induction false} SortedUnique(s: seq<Coordinates>, t: seq<Coordinates>)
    requires RowMajorSorted(s) && RowMajorSorted(t)
    requires forall x :: x in s <==> x in t
    ensures s == t
  {
    if s != [] && t != [] {
      SortedHeads(s, t);
      forall x ensures x in s[1..] <==> x in t[1..] {
        if x in s[1..] {
          var i :| 1 <= i < |s| && s[i] == x;
          assert RowMajorLess(s[0], x);
          assert x in t && x != t[0];
        }
        if x in t[1..] {
          var j :| 1 <= j < |t| && t[j] == x;
          assert RowMajorLess(t[0], x);
          assert x in s && x != s[0];
        }
      }
      SortedUnique(s[1..], t[1..]);
      assert s == [s[0]] + s[1..];
      assert t == [t[0]] + t[1..];
    } else {
      SameCellsBothEmpty(s, t);
    }
  }

  // ---------------------------------------------------------------------
  // Decimal text of an int, as produced by string concatenation of an int,
  // and Integer.parseInt, as used by the string constructor.
  // ---------------------------------------------------------------------

  predicate IsDigit(ch: char) { '0' <= ch <= '9' }

  predicate AllDigits(s: string) { forall i :: 0 <= i < |s| ==> IsDigit(s[i]) }

  function DigitChar(d: nat): (ch: char)
    requires d < 10
    ensures IsDigit(ch) && ch as int - '0' as int == d
  {
    ('0' as int + d) as char
  }

  /** Decimal digits of a natural number, without leading zeros. */
  function Digits(n: nat): (s: string)
    ensures |s| > 0 && AllDigits(s)
    decreases n
  {
    if n < 10 then [DigitChar(n)] else Digits(n / 10) + [DigitChar(n % 10)]
  }

  /** The value of a string of decimal digits. */
  function DigitsValue(s: string): nat
    requires AllDigits(s)
  {
    if s == [] then 0
    else DigitsValue(s[..|s| - 1]) * 10 + (s[|s| - 1] as int - '0' as int)
  }

  lemma {:induction false} DigitsValueOfDigits(n: nat)
    ensures DigitsValue(Digits(n)) == n
    decreases n
  {
    if n >= 10 {
      var s := Digits(n);
      assert s[..|s| - 1] == Digits(n / 10);
      DigitsValueOfDigits(n / 10);
    }
  }

  /** Java's decimal text of an int: a minus sign for negatives, then the digits. */
  function IntToString(n: int): (s: string)
    ensures |s| > 0 && ',' !in s && ')' !in s
    ensures n >= 0 ==> AllDigits(s)
    ensures n < 0 ==> s[0] == '-' && AllDigits(s[1..])
  {
    if n < 0 then "-" + Digits(-n) else Digits(n)
  }

  /** Java's `int` range. */
  predicate IsInt32(n: int) { -0x8000_0000 <= n < 0x8000_0000 }

  /**
   * Integer.parseInt with radix 10: an optional leading '-' or '+', then one or
   * more digits, and a value in the int range; anything else is a
   * NumberFormatException, modelled as None.
   */
  function ParseInt(s: string): (r: Option<int>)
    ensures r.Some? ==> IsInt32(r.value)
    ensures r.Some? ==> |s| > 0
    ensures |s| > 0 && AllDigits(s) ==>
      r == if IsInt32(DigitsValue(s)) then Some(DigitsValue(s)) else None
    ensures |s| > 1 && s[0] == '+' && AllDigits(s[1..]) ==>
      r == if IsInt32(DigitsValue(s[1..])) then Some(DigitsValue(s[1..])) else None
    ensures |s| > 1 && s[0] == '-' && AllDigits(s[1..]) ==>
      r == if IsInt32(-(DigitsValue(s[1..]) as int)) then Some(-(DigitsValue(s[1..]) as int)) else None
    ensures r.Some? ==> AllDigits(s) || (|s| > 1 && (s[0] == '+' || s[0] == '-') && AllDigits(s[1..]))
  {
    if |s| == 0 then None
    else if s[0] == '-' || s[0] == '+' then
      if |s| == 1 || !AllDigits(s[1..]) then None
      else
        var d: int := DigitsValue(s[1..]);
        var v := if s[0] == '-' then -d else d;
        if IsInt32(v) then Some(v) else None
    else if !AllDigits(s) then None
    else if IsInt32(DigitsValue(s)) then Some(DigitsValue(s)) else None
  }

  /** Parsing the text of an int gives the int back. */
  lemma ParseIntToString(n: int)
    requires IsInt32(n)
    ensures ParseInt(IntToString(n)) == Some(n)
  {
    if n < 0 {
      assert IntToString(n)[1..] == Digits(-n);
      DigitsValueOfDigits(-n);
    } else {
      DigitsValueOfDigits(n);
    }
  }

  /** Distinct ints have distinct texts. */
  lemma IntToStringInjective(m: int, n: int)
    requires IntToString(m) == IntToString(n)
    ensures m == n
  {
    if m < 0 && n < 0 {
      assert IntToString(m)[1..] == Digits(-m);
      assert IntToString(n)[1..] == Digits(-n);
      DigitsValueOfDigits(-m);
      DigitsValueOfDigits(-n);
    } else if m >= 0 && n >= 0 {
      DigitsValueOfDigits(m);
      DigitsValueOfDigits(n);
    }
  }

  /** The record's text, "(row,col)". */
  function ToString(c: Coordinates): (s: string)
    ensures |s| >= 5 && s[0] == '(' && s[|s| - 1] == ')'
    ensures forall i :: 0 <= i < |s| - 1 ==> s[i] != ')'
  {
    var r, k := IntToString(c.row), IntToString(c.col);
    var s := "(" + r + "," + k + ")";
    assert forall i :: 0 <= i < |s| - 1 ==> s[i] == '(' || s[i] == ',' || s[i] in r || s[i] in k;
    s
  }

  lemma SplitAtComma(ra: string, ca: string, rb: string, cb: string)
    requires ',' !in ra && ',' !in rb
    requires "(" + ra + "," + ca + ")" == "(" + rb + "," + cb + ")"
    ensures ra == rb && ca == cb
  {
    var s := "(" + ra + "," + ca + ")";
    assert s[1 + |ra|] == ',';
    var s' := "(" + rb + "," + cb + ")";
    assert s'[1 + |rb|] == ',';
    assert ra == s[1..1 + |ra|];
    assert rb == s'[1..1 + |rb|];
    assert ca == s[2 + |ra|..|s| - 1];
    assert cb == s'[2 + |rb|..|s'| - 1];
  }

  /** Distinct cells print differently, so a message names the cell it is about. */
  lemma ToStringInjective(a: Coordinates, b: Coordinates)
    requires ToString(a) == ToString(b)
    ensures a == b
  {
    SplitAtComma(IntToString(a.row), IntToString(a.col), IntToString(b.row), IntToString(b.col));
    IntToStringInjective(a.row, b.row);
    IntToStringInjective(a.col, b.col);
  }

  /** The string constructor: both components parsed with Integer.parseInt. */
  function FromStrings(rowStr: string, colStr: string): (r: Option<Coordinates>)
    ensures r.Some? <==> ParseInt(rowStr).Some? && ParseInt(colStr).Some?
  {
    match (ParseInt(rowStr), ParseInt(colStr))
    case (Some(row), Some(col)) => Some(Coordinates(row, col))
    case _ => None
  }

  /** The string constructor applied to the texts of two ints builds the same record as the int constructor. */
  lemma FromStringsOfInts(row: int, col: int)
    requires IsInt32(row) && IsInt32(col)
    ensures FromStrings(IntToString(row), IntToString(col)) == Some(Coordinates(row, col))
  {
    ParseIntToString(row);
    ParseIntToString(col);
  }
}
