/**
 * A rush-hour board: the character grid in which every car is stamped with
 * the first character of its name, and the cars in the order of their names.
 * The board dimensions are fixed for a puzzle; here they are those of the grid.
 */
module Board {
  import opened Wrappers
  import opened Coords
  import opened Cars

  /** The character of a cell no car covers. */
  const EMPTY: char := '.'

  /** The name of the car that must reach the last column. */
  const GOAL: string := "X"

  type Grid = seq<seq<char>>

  /**
   * One configuration of the puzzle. `cars` holds the car map's entries in
   * key order, so iterating it is iterating the map.
   */
  datatype JamConfiguration = JamConfiguration(gameBoard: Grid, cars: seq<Car>)

  function NumCols(g: Grid): nat {
    if |g| == 0 then 0 else |g[0]|
  }

  predicate Rectangular(g: Grid) {
    forall r :: 0 <= r < |g| ==> |g[r]| == NumCols(g)
  }

  predicate InBounds(g: Grid, x: Coordinates) {
    0 <= x.row < |g| && 0 <= x.col < NumCols(g)
  }

  function At(g: Grid, x: Coordinates): char
    requires Rectangular(g) && InBounds(g, x)
  {
    g[x.row][x.col]
  }

  // ---------------------------------------------------------------------
  // getAllCarCoordinates: the row-major scan for one character
  // ---------------------------------------------------------------------

  /** The cells of row `r`, columns `0..c`, that hold `ch`, left to right. */
  function RowScan(g: Grid, ch: char, r: nat, c: nat): seq<Coordinates>
    requires Rectangular(g) && r < |g| && c <= NumCols(g)
  {
    if c == 0 then []
    else RowScan(g, ch, r, c - 1) + (if g[r][c - 1] == ch then [Coordinates(r, c - 1)] else [])
  }

  /** The cells of rows `0..r` that hold `ch`, in row-major order. */
  function GridScan(g: Grid, ch: char, r: nat): seq<Coordinates>
    requires Rectangular(g) && r <= |g|
  {
    if r == 0 then [] else GridScan(g, ch, r - 1) + RowScan(g, ch, r - 1, NumCols(g))
  }

  lemma {:induction false} RowScanFacts(g: Grid, ch: char, r: nat, c: nat)
    requires Rectangular(g) && r < |g| && c <= NumCols(g)
    ensures RowMajorSorted(RowScan(g, ch, r, c))
    ensures forall x :: x in RowScan(g, ch, r, c) <==> x.row == r && 0 <= x.col < c && g[r][x.col] == ch
  {
    if c > 0 {
      RowScanFacts(g, ch, r, c - 1);
      var last := if g[r][c - 1] == ch then [Coordinates(r, c - 1)] else [];
      SortedAppend(RowScan(g, ch, r, c - 1), last);
    }
  }

  lemma {:induction false} GridScanFacts(g: Grid, ch: char, r: nat)
    requires Rectangular(g) && r <= |g|
    ensures RowMajorSorted(GridScan(g, ch, r))
    ensures forall x :: x in GridScan(g, ch, r) <==>
      0 <= x.row < r && 0 <= x.col < NumCols(g) && g[x.row][x.col] == ch
  {
    if r > 0 {
      GridScanFacts(g, ch, r - 1);
      RowScanFacts(g, ch, r - 1, NumCols(g));
      SortedAppend(GridScan(g, ch, r - 1), RowScan(g, ch, r - 1, NumCols(g)));
    }
  }

  /**
   * getAllCarCoordinates: exactly the cells that hold `ch`, in row-major order.
   */
  function AllCarCoordinates(g: Grid, ch: char): (coords: seq<Coordinates>)
    requires Rectangular(g)
    ensures RowMajorSorted(coords)
    ensures forall x :: x in coords <==> InBounds(g, x) && At(g, x) == ch
  {
    GridScanFacts(g, ch, |g|);
    GridScan(g, ch, |g|)
  }

  /** Two grids that agree on which cells hold `ch` give the same scan. */
  lemma SameScan(g: Grid, h: Grid, ch: char)
    requires Rectangular(g) && Rectangular(h)
    requires forall x :: (InBounds(g, x) && At(g, x) == ch) <==> (InBounds(h, x) && At(h, x) == ch)
    ensures AllCarCoordinates(g, ch) == AllCarCoordinates(h, ch)
  {
    SortedUnique(AllCarCoordinates(g, ch), AllCarCoordinates(h, ch));
  }

  /** The scan as the source writes it: two nested loops appending to a list. */
  method GetAllCarCoordinates(c: JamConfiguration, currCar: Car) returns (coordinatesList: seq<Coordinates>)
    requires Rectangular(c.gameBoard) && |currCar.carName| > 0
    ensures coordinatesList == AllCarCoordinates(c.gameBoard, currCar.carName[0])
  {
    var g := c.gameBoard;
    var ch := currCar.carName[0];
    coordinatesList := [];
    for r := 0 to |g|
      invariant coordinatesList == GridScan(g, ch, r)
    {
      for col := 0 to NumCols(g)
        invariant coordinatesList == GridScan(g, ch, r) + RowScan(g, ch, r, col)
      {
        if g[r][col] == ch {
          coordinatesList := coordinatesList + [Coordinates(r, col)];
        }
      }
    }
  }

  // ---------------------------------------------------------------------
  // The car map: lookup and replace
  // ---------------------------------------------------------------------

  /** The names of the cars, in map order. */
  function Names(cars: seq<Car>): (names: seq<string>)
    ensures |names| == |cars|
    ensures forall k :: 0 <= k < |cars| ==> names[k] == cars[k].carName
  {
    seq(|cars|, k requires 0 <= k < |cars| => cars[k].carName)
  }

  /** get: the car stored under `name`, if any. */
  function Lookup(cars: seq<Car>, name: string): (r: Option<Car>)
    ensures r.Some? <==> name in Names(cars)
    ensures r.Some? ==> r.value in cars && r.value.carName == name
  {
    if cars == [] then None
    else if cars[0].carName == name then Some(cars[0])
    else
      assert Names(cars) == [cars[0].carName] + Names(cars[1..]);
      Lookup(cars[1..], name)
  }

  /** With distinct names, the lookup finds the one car of that name. */
  lemma {:induction false} LookupAt(cars: seq<Car>, k: nat)
    requires k < |cars|
    requires forall i, j :: 0 <= i < j < |cars| ==> cars[i].carName != cars[j].carName
    ensures Lookup(cars, cars[k].carName) == Some(cars[k])
  {
    if k > 0 {
      LookupAt(cars[1..], k - 1);
    }
  }

  /**
   * replace: the entry stored under `name` now holds `car`; every other entry
   * is kept and none is added.
   */
  function Replace(cars: seq<Car>, name: string, car: Car): (r: seq<Car>)
    requires car.carName == name
    ensures |r| == |cars| && Names(r) == Names(cars)
    ensures forall i :: 0 <= i < |cars| ==> r[i] == if cars[i].carName == name then car else cars[i]
  {
    if cars == [] then []
    else [if cars[0].carName == name then car else cars[0]] + Replace(cars[1..], name, car)
  }

  /** After `replace`, `get` of another name returns the old entry ... */
  lemma {:induction false} LookupReplaceOther(cars: seq<Car>, name: string, car: Car, n: string)
    requires car.carName == name && n != name
    ensures Lookup(Replace(cars, name, car), n) == Lookup(cars, n)
  {
    if cars != [] && cars[0].carName != n {
      var r := Replace(cars, name, car);
      assert r[1..] == Replace(cars[1..], name, car);
      LookupReplaceOther(cars[1..], name, car, n);
    }
  }

  /** ... and `get` of the replaced name returns the new car, when the name was there. */
  lemma LookupReplaceSame(cars: seq<Car>, name: string, car: Car)
    requires car.carName == name
    ensures Lookup(Replace(cars, name, car), name) == if name in Names(cars) then Some(car) else None
  {
    var r := Replace(cars, name, car);
    if name in Names(cars) {
      var v := Lookup(r, name).value;
      var i :| 0 <= i < |r| && r[i] == v;
    }
  }

  /** With distinct names, replacing an entry is updating its position. */
  lemma ReplaceAt(cars: seq<Car>, k: nat, car: Car)
    requires k < |cars| && car.carName == cars[k].carName
    requires forall i, j :: 0 <= i < j < |cars| ==> cars[i].carName != cars[j].carName
    ensures Replace(cars, car.carName, car) == cars[k := car]
  {
    var r := Replace(cars, car.carName, car);
    forall i | 0 <= i < |cars| ensures r[i] == cars[k := car][i] {
      if i != k {
        assert cars[i].carName != car.carName by {
          if i < k {
            assert cars[i].carName != cars[k].carName;
          } else {
            assert cars[k].carName != cars[i].carName;
          }
        }
      }
    }
  }

  // ---------------------------------------------------------------------
  // The car map: a TreeMap from names to cars, as entries in key order
  // ---------------------------------------------------------------------

  /** String.compareTo(a, b) < 0: lexicographic by character, a proper prefix first. */
  predicate StrLess(a: string, b: string) {
    if a == [] then b != []
    else if b == [] then false
    else if a[0] != b[0] then a[0] < b[0]
    else StrLess(a[1..], b[1..])
  }

  /** The ordering of names is a strict total order. */
  lemma {:induction false} StrLessTotal(a: string, b: string)
    ensures !(StrLess(a, b) && StrLess(b, a))
    ensures a != b ==> StrLess(a, b) || StrLess(b, a)
    ensures !StrLess(a, a)
  {
    if a != [] && b != [] && a[0] == b[0] {
      StrLessTotal(a[1..], b[1..]);
      if a != b {
        assert a == [a[0]] + a[1..] && b == [b[0]] + b[1..];
      }
    } else if a != [] {
      StrLessTotal(a[1..], a[1..]);
    }
  }

  lemma {:induction false} StrLessTrans(a: string, b: string, c: string)
    requires StrLess(a, b) && StrLess(b, c)
    ensures StrLess(a, c)
  {
    if a != [] && a[0] == b[0] && b[0] == c[0] {
      StrLessTrans(a[1..], b[1..], c[1..]);
    }
  }

  /** The entries are in strictly increasing key order, as a TreeMap iterates them. */
  predicate KeyOrdered(cars: seq<Car>) {
    forall i, j :: 0 <= i < j < |cars| ==> StrLess(cars[i].carName, cars[j].carName)
  }

  /** Keys in increasing order are distinct. */
  lemma KeyOrderedDistinct(cars: seq<Car>)
    requires KeyOrdered(cars)
    ensures forall i, j :: 0 <= i < j < |cars| ==> cars[i].carName != cars[j].carName
  {
    forall i, j | 0 <= i < j < |cars| ensures cars[i].carName != cars[j].carName {
      StrLessTotal(cars[i].carName, cars[j].carName);
    }
  }

  /** put: the car stored under its name, replacing any earlier car of that name. */
  function Put(cars: seq<Car>, car: Car): (r: seq<Car>)
    ensures forall x :: x in r ==> x == car || x in cars
    ensures car in r
  {
    if cars == [] then [car]
    else if cars[0].carName == car.carName then [car] + cars[1..]
    else if StrLess(car.carName, cars[0].carName) then [car] + cars
    else [cars[0]] + Put(cars[1..], car)
  }

  /** put keeps the entries in key order. */
  lemma {:induction false} PutKeyOrdered(cars: seq<Car>, car: Car)
    requires KeyOrdered(cars)
    ensures KeyOrdered(Put(cars, car))
  {
    var r := Put(cars, car);
    if cars == [] {
    } else if cars[0].carName == car.carName {
      forall i, j | 0 <= i < j < |r| ensures StrLess(r[i].carName, r[j].carName) {
        assert r[i].carName == cars[i].carName && r[j] == cars[j];
      }
    } else if StrLess(car.carName, cars[0].carName) {
      forall i, j | 0 <= i < j < |r| ensures StrLess(r[i].carName, r[j].carName) {
        if i == 0 && j > 1 {
          StrLessTrans(car.carName, cars[0].carName, cars[j - 1].carName);
        }
      }
    } else {
      StrLessTotal(car.carName, cars[0].carName);
      PutKeyOrdered(cars[1..], car);
      forall i, j | 0 <= i < j < |r| ensures StrLess(r[i].carName, r[j].carName) {
        if i == 0 {
          assert r[j] in Put(cars[1..], car);
        }
      }
    }
  }

  /** What `get` returns after `put`: the new car under its name, the old entry under any other. */
  lemma {:induction false} LookupPut(cars: seq<Car>, car: Car, n: string)
    ensures Lookup(Put(cars, car), n) == if n == car.carName then Some(car) else Lookup(cars, n)
  {
    if cars != [] && cars[0].carName != car.carName && !StrLess(car.carName, cars[0].carName) {
      LookupPut(cars[1..], car, n);
    }
  }

  /** The car map after putting each car in turn, starting from an empty map. */
  function PutAll(lines: seq<Car>): (m: seq<Car>)
    ensures KeyOrdered(m)
    ensures forall x :: x in m ==> x in lines
  {
    if lines == [] then []
    else
      var m := PutAll(lines[..|lines| - 1]);
      PutKeyOrdered(m, lines[|lines| - 1]);
      Put(m, lines[|lines| - 1])
  }

  /** The map holds, under each name, the last car read with that name. */
  lemma {:induction false} LookupPutAll(lines: seq<Car>, k: nat)
    requires k < |lines|
    requires forall j :: k < j < |lines| ==> lines[j].carName != lines[k].carName
    ensures Lookup(PutAll(lines), lines[k].carName) == Some(lines[k])
  {
    var n := |lines| - 1;
    var prefix := lines[..n];
    var name := lines[k].carName;
    assert PutAll(lines) == Put(PutAll(prefix), lines[n]);
    LookupPut(PutAll(prefix), lines[n], name);
    if k < n {
      assert prefix[k] == lines[k];
      assert forall j :: k < j < |prefix| ==> prefix[j].carName != prefix[k].carName;
      LookupPutAll(prefix, k);
    } else {
      assert k == n;
    }
  }

  // ---------------------------------------------------------------------
  // The copy constructor: one car moved to new coordinates
  // ---------------------------------------------------------------------

  /** The car rebuilt from the first and last of its new coordinates. */
  function CarFromCells(name: string, cells: seq<Coordinates>): Car
    requires |cells| > 0
  {
    Car(name, cells[0].row, cells[0].col, cells[|cells| - 1].row, cells[|cells| - 1].col)
  }

  /** The other board with every cell holding `ch` cleared and then `updated` stamped with `ch`. */
  function MovedBoard(g: Grid, ch: char, updated: seq<Coordinates>): (h: Grid)
    requires Rectangular(g)
    ensures |h| == |g| && Rectangular(h) && NumCols(h) == NumCols(g)
  {
    seq(|g|, i requires 0 <= i < |g| =>
      seq(NumCols(g), j requires 0 <= j < NumCols(g) =>
        if Coordinates(i, j) in updated then ch else if g[i][j] == ch then EMPTY else g[i][j]))
  }

  /** The configuration the copy constructor builds. */
  function Moved(other: JamConfiguration, car: Car, updated: seq<Coordinates>): JamConfiguration
    requires Rectangular(other.gameBoard) && |car.carName| > 0 && |updated| > 0
  {
    JamConfiguration(
      MovedBoard(other.gameBoard, car.carName[0], updated),
      Replace(other.cars, car.carName, CarFromCells(car.carName, updated)))
  }

  /** The cells of the moved car after the copy are exactly its new coordinates, in order. */
  lemma MovedCarCells(g: Grid, ch: char, updated: seq<Coordinates>)
    requires Rectangular(g) && RowMajorSorted(updated) && ch != EMPTY
    requires forall x :: x in updated ==> InBounds(g, x)
    ensures AllCarCoordinates(MovedBoard(g, ch, updated), ch) == updated
  {
    var h := MovedBoard(g, ch, updated);
    assert forall x :: InBounds(h, x) && At(h, x) == ch <==> x in updated by {
      forall x | InBounds(h, x) ensures At(h, x) == ch <==> x in updated {
        if At(g, x) == ch && x !in updated {
          assert At(h, x) == EMPTY;
        }
      }
    }
    SortedUnique(AllCarCoordinates(h, ch), updated);
  }

  /**
   * Every other character keeps its cells, provided none of the new
   * coordinates held it before the copy.
   */
  lemma MovedOtherCells(g: Grid, ch: char, updated: seq<Coordinates>, other: char)
    requires Rectangular(g) && other != ch && other != EMPTY
    requires forall x :: x in updated && InBounds(g, x) ==> At(g, x) != other
    ensures AllCarCoordinates(MovedBoard(g, ch, updated), other) == AllCarCoordinates(g, other)
  {
    SameScan(MovedBoard(g, ch, updated), g, other);
  }

  /**
   * The copy constructor as the source writes it: copy the rows, clear the
   * car's old cells, replace its map entry, stamp its new coordinates.
   */
  method CopyWithMove(other: JamConfiguration, car: Car, updatedCoordinates: seq<Coordinates>)
    returns (c: JamConfiguration)
    requires Rectangular(other.gameBoard) && |car.carName| > 0 && |updatedCoordinates| > 0
    requires forall k :: 0 <= k < |updatedCoordinates| ==> InBounds(other.gameBoard, updatedCoordinates[k])
    ensures c == Moved(other, car, updatedCoordinates)
  {
    var g := other.gameBoard;
    var numRows, numCols := |g|, NumCols(g);
    var ch := car.carName[0];
    var gameBoard := new char[numRows, numCols];

    for r := 0 to numRows
      invariant forall i, j :: 0 <= i < r && 0 <= j < numCols ==> gameBoard[i, j] == g[i][j]
    {
      forall j | 0 <= j < numCols {
        gameBoard[r, j] := g[r][j];
      }
    }

    for i := 0 to numRows
      invariant forall i', j :: 0 <= i' < numRows && 0 <= j < numCols ==>
        gameBoard[i', j] == if i' < i && g[i'][j] == ch then EMPTY else g[i'][j]
    {
      for j := 0 to numCols
        invariant forall i', j' :: 0 <= i' < numRows && 0 <= j' < numCols ==>
          gameBoard[i', j'] == if (i' < i || (i' == i && j' < j)) && g[i'][j'] == ch then EMPTY else g[i'][j']
      {
        if gameBoard[i, j] == ch {
          gameBoard[i, j] := EMPTY;
        }
      }
    }

    var first := updatedCoordinates[0];
    var last := updatedCoordinates[|updatedCoordinates| - 1];
    var cars := Replace(other.cars, car.carName, Car(car.carName, first.row, first.col, last.row, last.col));

    for k := 0 to |updatedCoordinates|
      invariant forall i, j :: 0 <= i < numRows && 0 <= j < numCols ==>
        gameBoard[i, j] == if Coordinates(i, j) in updatedCoordinates[..k] then ch
                           else if g[i][j] == ch then EMPTY else g[i][j]
    {
      var currCord := updatedCoordinates[k];
      gameBoard[currCord.row, currCord.col] := ch;
    }
    assert updatedCoordinates[..|updatedCoordinates|] == updatedCoordinates;
    c := JamConfiguration(Contents(gameBoard), cars);
    assert Contents(gameBoard) == MovedBoard(g, ch, updatedCoordinates) by {
      var h := MovedBoard(g, ch, updatedCoordinates);
      forall i | 0 <= i < numRows ensures Contents(gameBoard)[i] == h[i] {
      }
    }
  }

  /** The grid held in a two-dimensional array. */
  function Contents(a: array2<char>): (g: Grid)
    reads a
    ensures |g| == a.Length0 && forall i :: 0 <= i < |g| ==> |g[i]| == a.Length1
    ensures forall i, j :: 0 <= i < a.Length0 && 0 <= j < a.Length1 ==> g[i][j] == a[i, j]
  {
    seq(a.Length0, i requires 0 <= i < a.Length0 reads a =>
      seq(a.Length1, j requires 0 <= j < a.Length1 reads a => a[i, j]))
  }

  // ---------------------------------------------------------------------
  // The file constructor's grid: fill with EMPTY, stamp each car in map order
  // ---------------------------------------------------------------------

  function EmptyBoard(numRows: nat, numCols: nat): (g: Grid)
    ensures |g| == numRows && Rectangular(g) && (numRows > 0 ==> NumCols(g) == numCols)
  {
    seq(numRows, i => seq(numCols, j => EMPTY))
  }

  /** The grid with every cell of `car` set to its letter. */
  function StampCar(g: Grid, car: Car): (h: Grid)
    requires Rectangular(g) && |car.carName| > 0
    ensures |h| == |g| && Rectangular(h) && NumCols(h) == NumCols(g)
  {
    seq(|g|, i requires 0 <= i < |g| =>
      seq(NumCols(g), j requires 0 <= j < NumCols(g) =>
        if Coordinates(i, j) in Cells(car) then car.carName[0] else g[i][j]))
  }

  /** The grid with the cars stamped one after the other, later cars over earlier ones. */
  function StampAll(g: Grid, cars: seq<Car>): (h: Grid)
    requires Rectangular(g) && forall k :: 0 <= k < |cars| ==> |cars[k].carName| > 0
    ensures |h| == |g| && Rectangular(h) && NumCols(h) == NumCols(g)
  {
    if cars == [] then g else StampCar(StampAll(g, cars[..|cars| - 1]), cars[|cars| - 1])
  }

  lemma StampCarAt(g: Grid, car: Car, x: Coordinates)
    requires Rectangular(g) && |car.carName| > 0 && InBounds(g, x)
    ensures At(StampCar(g, car), x) == if x in Cells(car) then car.carName[0] else At(g, x)
  {
  }

  /** A cell covered by exactly one car holds that car's letter once all cars are stamped. */
  lemma {:induction false} StampAllCovered(g: Grid, cars: seq<Car>, x: Coordinates, k: nat)
    requires Rectangular(g) && InBounds(g, x)
    requires forall j :: 0 <= j < |cars| ==> |cars[j].carName| > 0
    requires k < |cars| && x in Cells(cars[k])
    requires forall j :: 0 <= j < |cars| && j != k ==> x !in Cells(cars[j])
    ensures At(StampAll(g, cars), x) == cars[k].carName[0]
  {
    var n := |cars| - 1;
    StampCarAt(StampAll(g, cars[..n]), cars[n], x);
    if k < n {
      StampAllCovered(g, cars[..n], x, k);
    }
  }

  /** A cell no car covers keeps its character. */
  lemma {:induction false} StampAllUncovered(g: Grid, cars: seq<Car>, x: Coordinates)
    requires Rectangular(g) && InBounds(g, x)
    requires forall j :: 0 <= j < |cars| ==> |cars[j].carName| > 0
    requires forall j :: 0 <= j < |cars| ==> x !in Cells(cars[j])
    ensures At(StampAll(g, cars), x) == At(g, x)
  {
    if cars != [] {
      var n := |cars| - 1;
      StampCarAt(StampAll(g, cars[..n]), cars[n], x);
      StampAllUncovered(g, cars[..n], x);
    }
  }

  /** The cells of a car all lie on a board of the given size. */
  predicate CarOnBoard(car: Car, numRows: int, numCols: int) {
    forall x :: x in Cells(car) ==> 0 <= x.row < numRows && 0 <= x.col < numCols
  }

  /**
   * The grid-stamping part of the file constructor: every cell set to EMPTY by
   * two nested loops, then each car's cells set to its letter in map order.
   */
  method StampBoard(numRows: nat, numCols: nat, cars: seq<Car>) returns (c: JamConfiguration)
    requires forall k :: 0 <= k < |cars| ==> |cars[k].carName| > 0 && CarOnBoard(cars[k], numRows, numCols)
    ensures c == JamConfiguration(StampAll(EmptyBoard(numRows, numCols), cars), cars)
  {
    var gameBoard := new char[numRows, numCols];
    for row := 0 to numRows
      invariant forall i, j :: 0 <= i < row && 0 <= j < numCols ==> gameBoard[i, j] == EMPTY
    {
      for col := 0 to numCols
        invariant forall i, j :: 0 <= i < numRows && 0 <= j < numCols && (i < row || (i == row && j < col)) ==>
          gameBoard[i, j] == EMPTY
      {
        gameBoard[row, col] := EMPTY;
      }
    }
    ghost var empty := EmptyBoard(numRows, numCols);
    for k := 0 to |cars|
      invariant forall i, j :: 0 <= i < numRows && 0 <= j < numCols ==>
        gameBoard[i, j] == StampAll(empty, cars[..k])[i][j]
    {
      assert cars[..k + 1][..k] == cars[..k];
      PlotCar(gameBoard, cars[k]);
    }
    assert cars[..|cars|] == cars;
    c := JamConfiguration(Contents(gameBoard), cars);
    assert Contents(gameBoard) == StampAll(empty, cars) by {
      var h := StampAll(empty, cars);
      forall i | 0 <= i < numRows ensures Contents(gameBoard)[i] == h[i] {
      }
    }
  }

  /** The configuration the file constructor builds from the board size and the car lines in file order. */
  function Initial(numRows: nat, numCols: nat, lines: seq<Car>): JamConfiguration
    requires forall k :: 0 <= k < |PutAll(lines)| ==> |PutAll(lines)[k].carName| > 0
  {
    JamConfiguration(StampAll(EmptyBoard(numRows, numCols), PutAll(lines)), PutAll(lines))
  }

  /**
   * The file constructor, after the file has been read: each car line is put
   * into the car map in file order, then the grid is filled and stamped.
   */
  method FromFile(numRows: nat, numCols: nat, lines: seq<Car>) returns (c: JamConfiguration)
    requires forall k :: 0 <= k < |PutAll(lines)| ==>
      |PutAll(lines)[k].carName| > 0 && CarOnBoard(PutAll(lines)[k], numRows, numCols)
    ensures c == Initial(numRows, numCols, lines)
    ensures KeyOrdered(c.cars)
    ensures forall k :: 0 <= k < |lines| && (forall j :: k < j < |lines| ==> lines[j].carName != lines[k].carName) ==>
      Lookup(c.cars, lines[k].carName) == Some(lines[k])
    ensures forall n :: n !in Names(c.cars) ==> forall k :: 0 <= k < |lines| ==> lines[k].carName != n
  {
    var stringCarTreeMap: seq<Car> := [];
    for k := 0 to |lines|
      invariant stringCarTreeMap == PutAll(lines[..k])
    {
      assert lines[..k + 1][..k] == lines[..k];
      stringCarTreeMap := Put(stringCarTreeMap, lines[k]);
    }
    assert lines[..|lines|] == lines;
    c := StampBoard(numRows, numCols, stringCarTreeMap);
    forall k | 0 <= k < |lines| && (forall j :: k < j < |lines| ==> lines[j].carName != lines[k].carName)
      ensures Lookup(c.cars, lines[k].carName) == Some(lines[k])
    {
      LookupPutAll(lines, k);
    }
    forall n, k | n !in Names(c.cars) && 0 <= k < |lines| ensures lines[k].carName != n {
      var last := LastWithName(lines, k);
      LookupPutAll(lines, last);
    }
  }

  /** The last line that names the same car as line `k`. */
  lemma LastWithName(lines: seq<Car>, k: nat) returns (last: nat)
    requires k < |lines|
    ensures k <= last < |lines| && lines[last].carName == lines[k].carName
    ensures forall j :: last < j < |lines| ==> lines[j].carName != lines[last].carName
    decreases |lines| - k
  {
    if j :| k < j < |lines| && lines[j].carName == lines[k].carName {
      last := LastWithName(lines, j);
    } else {
      last := k;
    }
  }

  /** Plots one car: its letter along its row, or down its column. */
  method PlotCar(gameBoard: array2<char>, currCar: Car)
    requires |currCar.carName| > 0 && CarOnBoard(currCar, gameBoard.Length0, gameBoard.Length1)
    modifies gameBoard
    ensures forall i, j :: 0 <= i < gameBoard.Length0 && 0 <= j < gameBoard.Length1 ==>
      gameBoard[i, j] == if Coordinates(i, j) in Cells(currCar) then currCar.carName[0] else old(gameBoard[i, j])
  {
    var ch := currCar.carName[0];
    if MovesSideways(currCar) {
      var col := currCar.startingCol;
      while col <= currCar.endingCol
        invariant col == currCar.startingCol || col <= currCar.endingCol + 1
        invariant forall i, j :: 0 <= i < gameBoard.Length0 && 0 <= j < gameBoard.Length1 ==>
          gameBoard[i, j] == if i == currCar.startingRow && currCar.startingCol <= j < col then ch else old(gameBoard[i, j])
        decreases currCar.endingCol - col
      {
        assert Coordinates(currCar.startingRow, col) in Cells(currCar);
        gameBoard[currCar.startingRow, col] := ch;
        col := col + 1;
      }
    } else {
      var row := currCar.startingRow;
      while row <= currCar.endingRow
        invariant row == currCar.startingRow || row <= currCar.endingRow + 1
        invariant forall i, j :: 0 <= i < gameBoard.Length0 && 0 <= j < gameBoard.Length1 ==>
          gameBoard[i, j] == if j == currCar.startingCol && currCar.startingRow <= i < row then ch else old(gameBoard[i, j])
        decreases currCar.endingRow - row
      {
        assert Coordinates(row, currCar.startingCol) in Cells(currCar);
        gameBoard[row, currCar.startingCol] := ch;
        row := row + 1;
      }
    }
  }

  // ---------------------------------------------------------------------
  // Consistency of the car map with the grid
  // ---------------------------------------------------------------------

  /** A car as a well-formed board file gives one: named, straight and on the board. */
  predicate WellFormedCar(car: Car, numRows: int, numCols: int) {
    |car.carName| > 0 && car.carName[0] != EMPTY && Straight(car) &&
    0 <= car.startingRow && car.endingRow < numRows &&
    0 <= car.startingCol && car.endingCol < numCols
  }

  /** The letters of the cars. */
  function CarChars(cars: seq<Car>): set<char>
    requires forall k :: 0 <= k < |cars| ==> |cars[k].carName| > 0
  {
    set k | 0 <= k < |cars| :: cars[k].carName[0]
  }

  predicate DistinctLetters(cars: seq<Car>)
    requires forall k :: 0 <= k < |cars| ==> |cars[k].carName| > 0
  {
    forall i, j :: 0 <= i < j < |cars| ==> cars[i].carName[0] != cars[j].carName[0]
  }

  /**
   * The car map matches the board: every car is well formed and the cells
   * holding its letter are exactly its cells, no two cars share a letter,
   * and every occupied cell holds the letter of some car.
   */
  ghost predicate Consistent(c: JamConfiguration) {
    var g := c.gameBoard;
    Rectangular(g) &&
    (forall k :: 0 <= k < |c.cars| ==> WellFormedCar(c.cars[k], |g|, NumCols(g))) &&
    (forall k :: 0 <= k < |c.cars| ==> AllCarCoordinates(g, c.cars[k].carName[0]) == Cells(c.cars[k])) &&
    DistinctLetters(c.cars) &&
    (forall x :: InBounds(g, x) ==> At(g, x) == EMPTY || At(g, x) in CarChars(c.cars))
  }

  /** A puzzle as the board file describes it: cars on the board, distinct letters, no overlap. */
  ghost predicate WellFormedPuzzle(numRows: nat, numCols: nat, cars: seq<Car>) {
    (forall k :: 0 <= k < |cars| ==> WellFormedCar(cars[k], numRows, numCols)) &&
    DistinctLetters(cars) &&
    (forall i, j, x :: 0 <= i < j < |cars| && x in Cells(cars[i]) ==> x !in Cells(cars[j]))
  }

  /** On the stamped board a cell of a car holds its letter, and a cell of no car holds EMPTY. */
  lemma StampedCells(numRows: nat, numCols: nat, cars: seq<Car>)
    requires WellFormedPuzzle(numRows, numCols, cars)
    ensures var g := StampAll(EmptyBoard(numRows, numCols), cars);
      (forall x, k :: InBounds(g, x) && 0 <= k < |cars| && x in Cells(cars[k]) ==> At(g, x) == cars[k].carName[0]) &&
      (forall x :: InBounds(g, x) && (forall k :: 0 <= k < |cars| ==> x !in Cells(cars[k])) ==> At(g, x) == EMPTY)
  {
    var empty := EmptyBoard(numRows, numCols);
    var g := StampAll(empty, cars);
    forall x, k | InBounds(g, x) && 0 <= k < |cars| && x in Cells(cars[k])
      ensures At(g, x) == cars[k].carName[0]
    {
      StampAllCovered(empty, cars, x, k);
    }
    forall x | InBounds(g, x) && forall k :: 0 <= k < |cars| ==> x !in Cells(cars[k])
      ensures At(g, x) == EMPTY
    {
      StampAllUncovered(empty, cars, x);
    }
  }

  /** On the stamped board the cells holding a car's letter are exactly its cells. */
  lemma StampedCarCells(numRows: nat, numCols: nat, cars: seq<Car>, k: nat)
    requires WellFormedPuzzle(numRows, numCols, cars) && k < |cars|
    ensures AllCarCoordinates(StampAll(EmptyBoard(numRows, numCols), cars), cars[k].carName[0]) == Cells(cars[k])
  {
    var empty := EmptyBoard(numRows, numCols);
    var g := StampAll(empty, cars);
    var ch := cars[k].carName[0];
    forall x ensures x in AllCarCoordinates(g, ch) <==> x in Cells(cars[k]) {
      if x in Cells(cars[k]) {
        assert WellFormedCar(cars[k], numRows, numCols);
        StampAllCovered(empty, cars, x, k);
      }
      if InBounds(g, x) && At(g, x) == ch {
        if m :| 0 <= m < |cars| && x in Cells(cars[m]) {
          StampAllCovered(empty, cars, x, m);
          assert cars[m].carName[0] == ch;
        } else {
          StampAllUncovered(empty, cars, x);
        }
      }
    }
    SortedUnique(AllCarCoordinates(g, ch), Cells(cars[k]));
  }

  /** The file constructor's board matches its car map. */
  lemma StampedConsistent(numRows: nat, numCols: nat, cars: seq<Car>)
    requires WellFormedPuzzle(numRows, numCols, cars)
    ensures Consistent(JamConfiguration(StampAll(EmptyBoard(numRows, numCols), cars), cars))
  {
    StampedCells(numRows, numCols, cars);
    forall k | 0 <= k < |cars| ensures AllCarCoordinates(StampAll(EmptyBoard(numRows, numCols), cars), cars[k].carName[0]) == Cells(cars[k]) {
      StampedCarCells(numRows, numCols, cars, k);
    }
  }

  /** Under consistency, a car is determined by its name and the cells of its letter. */
  lemma CarFromItsCells(car: Car)
    requires Straight(car)
    ensures CarFromCells(car.carName, Cells(car)) == car
  {
    CellsEnds(car);
  }

  // ---------------------------------------------------------------------
  // isSolution, equals, hashCode, getCharAtCord
  // ---------------------------------------------------------------------

  predicate HasGoalCar(c: JamConfiguration) {
    Lookup(c.cars, GOAL).Some?
  }

  /** On a consistent board the cells holding 'X' are exactly the cells of the car X. */
  lemma GoalCarCells(c: JamConfiguration)
    requires Consistent(c) && HasGoalCar(c)
    ensures var x := Lookup(c.cars, GOAL).value;
      AllCarCoordinates(c.gameBoard, 'X') == Cells(x) && Straight(x) &&
      Cells(x)[|Cells(x)| - 1] == Coordinates(x.endingRow, x.endingCol)
  {
    var x := Lookup(c.cars, GOAL).value;
    var k :| 0 <= k < |c.cars| && c.cars[k] == x;
    assert x.carName == GOAL;
    CellsEnds(x);
  }

  /**
   * isSolution: the last cell of X, in row-major order, is the last column of
   * X's starting row.
   */
  predicate IsSolution(c: JamConfiguration)
    requires Consistent(c) && HasGoalCar(c)
  {
    var currCar := Lookup(c.cars, GOAL).value;
    GoalCarCells(c);
    var carCords := AllCarCoordinates(c.gameBoard, 'X');
    carCords[|carCords| - 1] == Coordinates(currCar.startingRow, NumCols(c.gameBoard) - 1)
  }

  /** The board is solved exactly when X lies along a row and ends in the last column. */
  lemma IsSolutionIff(c: JamConfiguration)
    requires Consistent(c) && HasGoalCar(c)
    ensures IsSolution(c) <==>
      var x := Lookup(c.cars, GOAL).value;
      MovesSideways(x) && x.endingCol == NumCols(c.gameBoard) - 1
  {
    GoalCarCells(c);
  }

  /** equals: two configurations are equal when their grids are equal cell for cell. */
  predicate Equals(a: JamConfiguration, b: JamConfiguration) {
    a.gameBoard == b.gameBoard
  }

  /**
   * For configurations whose car maps match their boards and hold the same
   * names, grid equality is equality of the whole configuration.
   */
  lemma EqualsIsSameConfiguration(a: JamConfiguration, b: JamConfiguration)
    requires Consistent(a) && Consistent(b) && Names(a.cars) == Names(b.cars)
    ensures Equals(a, b) <==> a == b
  {
    if Equals(a, b) {
      forall k | 0 <= k < |a.cars| ensures a.cars[k] == b.cars[k] {
        assert a.cars[k].carName == Names(a.cars)[k] == Names(b.cars)[k] == b.cars[k].carName;
        CarFromItsCells(a.cars[k]);
        CarFromItsCells(b.cars[k]);
      }
    }
  }

  const TWO_TO_32: int := 0x1_0000_0000

  /** Arrays.hashCode of a char array, as a 32-bit pattern: start at 1, then 31 * h + c, wrapping. */
  function CharsHash(row: seq<char>): (h: nat)
    ensures h < TWO_TO_32
  {
    if row == [] then 1
    else (31 * CharsHash(row[..|row| - 1]) + row[|row| - 1] as int) % TWO_TO_32
  }

  /** Arrays.deepHashCode of the rows, as a 32-bit pattern. */
  function DeepHash(g: Grid): (h: nat)
    ensures h < TWO_TO_32
  {
    if g == [] then 1
    else (31 * DeepHash(g[..|g| - 1]) + CharsHash(g[|g| - 1])) % TWO_TO_32
  }

  /** hashCode: the grid's deep hash read as a signed 32-bit int. */
  function HashCode(c: JamConfiguration): (h: int)
    ensures IsInt32(h)
  {
    var u := DeepHash(c.gameBoard);
    if u < 0x8000_0000 then u else u - TWO_TO_32
  }

  /** Equal configurations hash alike; the hash reads the grid only. */
  lemma HashCodeRespectsEquals(a: JamConfiguration, b: JamConfiguration)
    requires Equals(a, b)
    ensures HashCode(a) == HashCode(b)
  {
  }

  /**
   * getCharAtCord: the character at a cell; on a consistent board it is EMPTY
   * or the letter of the one car covering the cell.
   */
  function GetCharAtCord(c: JamConfiguration, row: int, col: int): (ch: char)
    requires Rectangular(c.gameBoard) && InBounds(c.gameBoard, Coordinates(row, col))
    ensures Consistent(c) && ch != EMPTY ==>
      exists k :: 0 <= k < |c.cars| && c.cars[k].carName[0] == ch && Coordinates(row, col) in Cells(c.cars[k])
    ensures Consistent(c) && ch == EMPTY ==>
      forall k :: 0 <= k < |c.cars| ==> Coordinates(row, col) !in Cells(c.cars[k])
  {
    c.gameBoard[row][col]
  }
}
