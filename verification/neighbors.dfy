/**
 * getNeighbors: every configuration one move away. A move slides one car a
 * single cell along its axis into an empty cell. The code tests the cell
 * just beyond the car's first or last coordinate; `Slide` is the reference
 * it is proved against: the car's letter moved to the cells of the slid car.
 */
module Moves {
  import opened Coords
  import opened Cars
  import opened Board

  /** The letter car `k` is drawn with. */
  function Letter(c: JamConfiguration, k: nat): char
    requires Consistent(c) && k < |c.cars|
  {
    c.cars[k].carName[0]
  }

  /** On a consistent board a cell holds a car's letter exactly when it is one of that car's cells. */
  lemma CellOwner(c: JamConfiguration, x: Coordinates)
    requires Consistent(c) && InBounds(c.gameBoard, x)
    ensures forall m :: 0 <= m < |c.cars| ==> (At(c.gameBoard, x) == Letter(c, m) <==> x in Cells(c.cars[m]))
  {
    forall m | 0 <= m < |c.cars| ensures At(c.gameBoard, x) == Letter(c, m) <==> x in Cells(c.cars[m]) {
      assert x in AllCarCoordinates(c.gameBoard, Letter(c, m)) <==> At(c.gameBoard, x) == Letter(c, m);
    }
  }

  /** The cells of a car of a consistent board all lie on the board. */
  lemma CarInBounds(c: JamConfiguration, k: nat)
    requires Consistent(c) && k < |c.cars|
    ensures forall x :: x in Cells(c.cars[k]) ==> InBounds(c.gameBoard, x)
  {
    assert WellFormedCar(c.cars[k], |c.gameBoard|, NumCols(c.gameBoard));
  }

  // ---------------------------------------------------------------------
  // The reference move
  // ---------------------------------------------------------------------

  /** The grid with `car`'s letter lifted off its cells and put down on the cells of `moved`. */
  function SlideBoard(g: Grid, car: Car, moved: Car): (h: Grid)
    requires Rectangular(g) && |car.carName| > 0
    ensures |h| == |g| && Rectangular(h) && NumCols(h) == NumCols(g)
  {
    seq(|g|, i requires 0 <= i < |g| =>
      seq(NumCols(g), j requires 0 <= j < NumCols(g) =>
        if Coordinates(i, j) in Cells(moved) then car.carName[0]
        else if Coordinates(i, j) in Cells(car) then EMPTY
        else g[i][j]))
  }

  /** Car `k` slid `d` cells along its axis, in the grid and in the car map. */
  function Slide(c: JamConfiguration, k: nat, d: int): (s: JamConfiguration)
    requires Rectangular(c.gameBoard) && k < |c.cars| && |c.cars[k].carName| > 0
    ensures |s.cars| == |c.cars| && s.cars[k] == Shifted(c.cars[k], d)
    ensures forall m :: 0 <= m < |c.cars| && m != k ==> s.cars[m] == c.cars[m]
  {
    var car := c.cars[k];
    JamConfiguration(SlideBoard(c.gameBoard, car, Shifted(car, d)), c.cars[k := Shifted(car, d)])
  }

  /**
   * Car `k` can slide `d` cells: every cell of the slid car is on the board and
   * is empty or already the car's own.
   */
  ghost predicate CanSlide(c: JamConfiguration, k: nat, d: int)
    requires Rectangular(c.gameBoard) && k < |c.cars|
  {
    forall x :: x in Cells(Shifted(c.cars[k], d)) ==>
      InBounds(c.gameBoard, x) && (At(c.gameBoard, x) == EMPTY || x in Cells(c.cars[k]))
  }

  /** `n` is `c` with car `k` slid one cell (`d` is 1 or -1) into a free cell. */
  ghost predicate IsMove(c: JamConfiguration, k: nat, d: int, n: JamConfiguration)
    requires Consistent(c) && k < |c.cars|
  {
    (d == 1 || d == -1) && CanSlide(c, k, d) && n == Slide(c, k, d)
  }

  /** What a slide does to one cell. */
  lemma SlideAt(c: JamConfiguration, k: nat, d: int, x: Coordinates)
    requires Rectangular(c.gameBoard) && k < |c.cars| && |c.cars[k].carName| > 0 && InBounds(c.gameBoard, x)
    ensures At(Slide(c, k, d).gameBoard, x) ==
      if x in Cells(Shifted(c.cars[k], d)) then c.cars[k].carName[0]
      else if x in Cells(c.cars[k]) then EMPTY
      else At(c.gameBoard, x)
  {
  }

  /** Another car's letter occupies the same cells after a slide. */
  lemma SlideKeepsOther(c: JamConfiguration, k: nat, d: int, m: nat)
    requires Consistent(c) && k < |c.cars| && CanSlide(c, k, d) && m < |c.cars| && m != k
    ensures AllCarCoordinates(Slide(c, k, d).gameBoard, Letter(c, m)) == AllCarCoordinates(c.gameBoard, Letter(c, m))
  {
    var g := c.gameBoard;
    var h := Slide(c, k, d).gameBoard;
    var other := Letter(c, m);
    forall x ensures (InBounds(h, x) && At(h, x) == other) <==> (InBounds(g, x) && At(g, x) == other) {
      if InBounds(g, x) {
        CellOwner(c, x);
        SlideAt(c, k, d, x);
      }
    }
    SameScan(h, g, other);
  }

  /** After a slide the moved car's letter occupies exactly the slid car's cells. */
  lemma SlideMovesCar(c: JamConfiguration, k: nat, d: int)
    requires Consistent(c) && k < |c.cars| && CanSlide(c, k, d)
    ensures AllCarCoordinates(Slide(c, k, d).gameBoard, Letter(c, k)) == Cells(Shifted(c.cars[k], d))
  {
    var g := c.gameBoard;
    var h := Slide(c, k, d).gameBoard;
    var ch := Letter(c, k);
    var moved := Shifted(c.cars[k], d);
    forall x ensures x in Cells(moved) <==> InBounds(h, x) && At(h, x) == ch {
      if InBounds(g, x) {
        CellOwner(c, x);
        SlideAt(c, k, d, x);
      }
    }
    SortedUnique(AllCarCoordinates(h, ch), Cells(moved));
  }

  /** A slide writes only letters of cars and EMPTY. */
  lemma SlideLetters(c: JamConfiguration, k: nat, d: int, x: Coordinates)
    requires Consistent(c) && k < |c.cars| && InBounds(c.gameBoard, x)
    ensures var h := Slide(c, k, d).gameBoard; At(h, x) == EMPTY || At(h, x) in CarChars(c.cars)
  {
    SlideAt(c, k, d, x);
  }

  /** After a slide each car's letter occupies exactly its cells in the new car map. */
  lemma SlideCarCells(c: JamConfiguration, k: nat, d: int, m: nat)
    requires Consistent(c) && k < |c.cars| && CanSlide(c, k, d) && m < |c.cars|
    ensures var s := Slide(c, k, d); AllCarCoordinates(s.gameBoard, s.cars[m].carName[0]) == Cells(s.cars[m])
  {
    if m == k {
      SlideMovesCar(c, k, d);
    } else {
      SlideKeepsOther(c, k, d, m);
    }
  }

  /** After a slide every car is still well formed on the board, and the letters are unchanged. */
  lemma SlideCars(c: JamConfiguration, k: nat, d: int)
    requires Consistent(c) && k < |c.cars| && CanSlide(c, k, d)
    ensures var s := Slide(c, k, d);
      (forall m :: 0 <= m < |s.cars| ==> WellFormedCar(s.cars[m], |s.gameBoard|, NumCols(s.gameBoard))) &&
      DistinctLetters(s.cars) && CarChars(s.cars) == CarChars(c.cars)
  {
    var g := c.gameBoard;
    var car := c.cars[k];
    var moved := Shifted(car, d);
    var s := Slide(c, k, d);
    assert WellFormedCar(car, |g|, NumCols(g));
    CellsEnds(moved);
    assert WellFormedCar(moved, |s.gameBoard|, NumCols(s.gameBoard));
    assert forall m :: 0 <= m < |s.cars| ==> s.cars[m].carName == c.cars[m].carName;
  }

  /** A slide into free cells keeps the car map consistent with the board. */
  lemma SlideConsistent(c: JamConfiguration, k: nat, d: int)
    requires Consistent(c) && k < |c.cars| && CanSlide(c, k, d)
    ensures Consistent(Slide(c, k, d))
  {
    var s := Slide(c, k, d);
    var h := s.gameBoard;
    SlideCars(c, k, d);
    forall m | 0 <= m < |s.cars| ensures AllCarCoordinates(h, s.cars[m].carName[0]) == Cells(s.cars[m]) {
      SlideCarCells(c, k, d, m);
    }
    forall x | InBounds(h, x) ensures At(h, x) == EMPTY || At(h, x) in CarChars(s.cars) {
      SlideLetters(c, k, d, x);
    }
  }

  /** A slide can be undone: sliding back the same distance restores the configuration. */
  lemma SlideBack(c: JamConfiguration, k: nat, d: int)
    requires Consistent(c) && k < |c.cars| && CanSlide(c, k, d)
    ensures CanSlide(Slide(c, k, d), k, -d)
    ensures Slide(Slide(c, k, d), k, -d) == c
  {
    SlideConsistent(c, k, d);
    var car := c.cars[k];
    var s := Slide(c, k, d);
    var back := Slide(s, k, -d);
    CarInBounds(c, k);
    ShiftedBack(car, d);
    forall x | x in Cells(car) ensures InBounds(s.gameBoard, x) && (At(s.gameBoard, x) == EMPTY || x in Cells(Shifted(car, d))) {
    }
    assert back.cars == c.cars;
    forall i | 0 <= i < |c.gameBoard| ensures back.gameBoard[i] == c.gameBoard[i] {
      forall j | 0 <= j < NumCols(c.gameBoard) ensures back.gameBoard[i][j] == c.gameBoard[i][j] {
        CellOwner(c, Coordinates(i, j));
      }
    }
  }

  // ---------------------------------------------------------------------
  // getNeighbors as the source writes it
  // ---------------------------------------------------------------------

  /** The cells holding car `k`'s letter, as getAllCarCoordinates lists them. */
  function CarCords(c: JamConfiguration, k: nat): seq<Coordinates>
    requires Consistent(c) && k < |c.cars|
  {
    AllCarCoordinates(c.gameBoard, Letter(c, k))
  }

  /** On a consistent board they are the car's own cells, from its start to its end. */
  lemma CarCordsCells(c: JamConfiguration, k: nat)
    requires Consistent(c) && k < |c.cars|
    ensures CarCords(c, k) == Cells(c.cars[k]) && |CarCords(c, k)| > 0
    ensures CarCords(c, k)[0] == Coordinates(c.cars[k].startingRow, c.cars[k].startingCol)
    ensures CarCords(c, k)[|CarCords(c, k)| - 1] == Coordinates(c.cars[k].endingRow, c.cars[k].endingCol)
  {
    assert WellFormedCar(c.cars[k], |c.gameBoard|, NumCols(c.gameBoard));
    CellsEnds(c.cars[k]);
  }

  /** The scan starts at the car's start and ends at its end, both on the board. */
  lemma CarCordsEnds(c: JamConfiguration, k: nat)
    requires Consistent(c) && k < |c.cars|
    ensures var cords := CarCords(c, k); var car := c.cars[k];
      |cords| > 0 &&
      cords[0] == Coordinates(car.startingRow, car.startingCol) &&
      cords[|cords| - 1] == Coordinates(car.endingRow, car.endingCol) &&
      0 <= car.startingRow <= car.endingRow < |c.gameBoard| &&
      0 <= car.startingCol <= car.endingCol < NumCols(c.gameBoard) &&
      Straight(car)
  {
    CarCordsCells(c, k);
    assert WellFormedCar(c.cars[k], |c.gameBoard|, NumCols(c.gameBoard));
  }

  lemma CarCordsNonEmpty(c: JamConfiguration, k: nat)
    requires Consistent(c) && k < |c.cars|
    ensures |CarCords(c, k)| > 0 && c.cars[k].startingRow < |c.gameBoard| && c.cars[k].startingCol < NumCols(c.gameBoard)
    ensures 0 <= CarCords(c, k)[0].row && 0 <= CarCords(c, k)[0].col
    ensures CarCords(c, k)[|CarCords(c, k)| - 1].row < |c.gameBoard| && CarCords(c, k)[|CarCords(c, k)| - 1].col < NumCols(c.gameBoard)
  {
    CarCordsCells(c, k);
  }

  /**
   * The test made before moving a car one cell forward (`d == 1`: right or
   * down) or back (`d == -1`: left or up), given the car's scanned
   * coordinates: the board goes on past the last (or before the first)
   * coordinate and that cell is EMPTY.
   */
  predicate MoveTest(g: Grid, car: Car, cords: seq<Coordinates>, d: int)
    requires Rectangular(g) && |cords| > 0
    requires 0 <= car.startingRow < |g| && 0 <= car.startingCol < NumCols(g)
    requires InBounds(g, cords[0]) && InBounds(g, cords[|cords| - 1])
  {
    var first := cords[0];
    var last := cords[|cords| - 1];
    if MovesSideways(car) then
      if d == 1 then last.col < NumCols(g) - 1 && g[car.startingRow][last.col + 1] == EMPTY
      else first.col > 0 && g[car.startingRow][first.col - 1] == EMPTY
    else
      if d == 1 then last.row < |g| - 1 && g[last.row + 1][car.startingCol] == EMPTY
      else first.row > 0 && g[first.row - 1][car.startingCol] == EMPTY
  }

  /** The test for car `k` of a configuration. */
  predicate CanStep(c: JamConfiguration, k: nat, d: int)
    requires Consistent(c) && k < |c.cars|
  {
    CarCordsEnds(c, k);
    MoveTest(c.gameBoard, c.cars[k], CarCords(c, k), d)
  }

  /** Every coordinate of the car moved one cell along its axis. */
  function Along(c: JamConfiguration, k: nat, d: int): seq<Coordinates>
    requires Consistent(c) && k < |c.cars|
  {
    if MovesSideways(c.cars[k]) then Shift(CarCords(c, k), 0, d) else Shift(CarCords(c, k), d, 0)
  }

  /** The neighbor the copy constructor builds for that move. */
  function Step(c: JamConfiguration, k: nat, d: int): JamConfiguration
    requires Consistent(c) && k < |c.cars|
  {
    Moved(c, c.cars[k], Along(c, k, d))
  }

  /** The neighbors from car `k`: forward first, then back. */
  function CarNeighbors(c: JamConfiguration, k: nat): seq<JamConfiguration>
    requires Consistent(c) && k < |c.cars|
  {
    (if CanStep(c, k, 1) then [Step(c, k, 1)] else []) +
    (if CanStep(c, k, -1) then [Step(c, k, -1)] else [])
  }

  /** The lists of `parts` one after the other. */
  function Flatten<T>(parts: seq<seq<T>>): seq<T> {
    if parts == [] then [] else Flatten(parts[..|parts| - 1]) + parts[|parts| - 1]
  }

  /** An element of one of the lists is in their concatenation ... */
  lemma {:induction false} InFlatten<T>(parts: seq<seq<T>>, i: nat, x: T)
    requires i < |parts| && x in parts[i]
    ensures x in Flatten(parts)
  {
    var init := parts[..|parts| - 1];
    if i < |init| {
      assert init[i] == parts[i];
      InFlatten(init, i, x);
    }
  }

  /** ... and every element of the concatenation comes from one of the lists, the `i`-th. */
  lemma {:induction false} FlattenSource<T>(parts: seq<seq<T>>, x: T) returns (i: nat)
    requires x in Flatten(parts)
    ensures i < |parts| && x in parts[i]
  {
    var init := parts[..|parts| - 1];
    if x in Flatten(init) {
      i := FlattenSource(init, x);
      assert init[i] == parts[i];
    } else {
      i := |parts| - 1;
    }
  }

  /** What each car contributes, in map order. */
  function PerCar(c: JamConfiguration): (parts: seq<seq<JamConfiguration>>)
    requires Consistent(c)
    ensures |parts| == |c.cars|
  {
    seq(|c.cars|, k requires 0 <= k < |c.cars| => CarNeighbors(c, k))
  }

  /** getNeighbors' list: the neighbors from each car in map order. */
  function Neighbors(c: JamConfiguration): seq<JamConfiguration>
    requires Consistent(c)
  {
    Flatten(PerCar(c))
  }

  /** The one cell a car gains by sliding one cell forward or back. */
  function Gained(car: Car, d: int): Coordinates {
    if MovesSideways(car) then
      (if d == 1 then Coordinates(car.startingRow, car.endingCol + 1) else Coordinates(car.startingRow, car.startingCol - 1))
    else
      (if d == 1 then Coordinates(car.endingRow + 1, car.startingCol) else Coordinates(car.startingRow - 1, car.startingCol))
  }

  /** Sliding one cell gains exactly one new cell; the other cells were already the car's. */
  lemma GainedCell(car: Car, d: int)
    requires Straight(car) && (d == 1 || d == -1)
    ensures Gained(car, d) in Cells(Shifted(car, d)) && Gained(car, d) !in Cells(car)
    ensures forall x :: x in Cells(Shifted(car, d)) && x != Gained(car, d) ==> x in Cells(car)
  {
  }

  /** When the scan runs from the car's start to its end, the test looks at the gained cell. */
  lemma MoveTestGained(g: Grid, car: Car, cords: seq<Coordinates>, d: int)
    requires Rectangular(g) && |cords| > 0 && Straight(car)
    requires 0 <= car.startingRow && car.endingRow < |g| && 0 <= car.startingCol && car.endingCol < NumCols(g)
    requires cords[0] == Coordinates(car.startingRow, car.startingCol)
    requires cords[|cords| - 1] == Coordinates(car.endingRow, car.endingCol)
    ensures MoveTest(g, car, cords, d) <==> InBounds(g, Gained(car, d)) && At(g, Gained(car, d)) == EMPTY
  {
  }

  /** The source's test looks at the gained cell. */
  lemma CanStepGained(c: JamConfiguration, k: nat, d: int)
    requires Consistent(c) && k < |c.cars|
    ensures CanStep(c, k, d) <==> InBounds(c.gameBoard, Gained(c.cars[k], d)) && At(c.gameBoard, Gained(c.cars[k], d)) == EMPTY
  {
    CarCordsEnds(c, k);
    MoveTestGained(c.gameBoard, c.cars[k], CarCords(c, k), d);
  }

  /** The one-cell test is exactly the reference condition for a one-cell slide. */
  lemma CanStepIff(c: JamConfiguration, k: nat, d: int)
    requires Consistent(c) && k < |c.cars| && (d == 1 || d == -1)
    ensures CanStep(c, k, d) <==> CanSlide(c, k, d)
  {
    CarCordsEnds(c, k);
    CanStepGained(c, k, d);
    FreeSlideGained(c.gameBoard, c.cars[k], d);
  }

  /** A one-cell slide of a car on the board is free exactly when the gained cell is on the board and EMPTY. */
  lemma FreeSlideGained(g: Grid, car: Car, d: int)
    requires Rectangular(g) && Straight(car) && (d == 1 || d == -1)
    requires 0 <= car.startingRow && car.endingRow < |g| && 0 <= car.startingCol && car.endingCol < NumCols(g)
    ensures (forall x :: x in Cells(Shifted(car, d)) ==> InBounds(g, x) && (At(g, x) == EMPTY || x in Cells(car)))
      <==> InBounds(g, Gained(car, d)) && At(g, Gained(car, d)) == EMPTY
  {
    GainedCell(car, d);
  }

  /** On a board where `car`'s letter fills exactly its cells, the copy constructor's board is the slid board. */
  lemma MovedIsSlideBoard(g: Grid, car: Car, d: int)
    requires Rectangular(g) && |car.carName| > 0
    requires forall x :: InBounds(g, x) ==> (At(g, x) == car.carName[0] <==> x in Cells(car))
    ensures MovedBoard(g, car.carName[0], Cells(Shifted(car, d))) == SlideBoard(g, car, Shifted(car, d))
  {
    var a := MovedBoard(g, car.carName[0], Cells(Shifted(car, d)));
    var b := SlideBoard(g, car, Shifted(car, d));
    forall i | 0 <= i < |a| ensures a[i] == b[i] {
      forall j | 0 <= j < NumCols(a) ensures a[i][j] == b[i][j] {
        assert InBounds(g, Coordinates(i, j));
      }
    }
  }

  /** Car `k`'s letter fills exactly its cells. */
  lemma OwnCells(c: JamConfiguration, k: nat)
    requires Consistent(c) && k < |c.cars|
    ensures forall x :: InBounds(c.gameBoard, x) ==> (At(c.gameBoard, x) == Letter(c, k) <==> x in Cells(c.cars[k]))
  {
    assert AllCarCoordinates(c.gameBoard, Letter(c, k)) == Cells(c.cars[k]);
  }

  /** Distinct letters make distinct names. */
  lemma DistinctNames(c: JamConfiguration)
    requires Consistent(c)
    ensures forall i, j :: 0 <= i < j < |c.cars| ==> c.cars[i].carName != c.cars[j].carName
  {
    forall i, j | 0 <= i < j < |c.cars| ensures c.cars[i].carName != c.cars[j].carName {
      assert c.cars[i].carName[0] != c.cars[j].carName[0];
    }
  }

  /** The copy constructor's neighbor is the reference slide. */
  lemma StepIsSlide(c: JamConfiguration, k: nat, d: int)
    requires Consistent(c) && k < |c.cars|
    ensures Step(c, k, d) == Slide(c, k, d)
  {
    var car := c.cars[k];
    var moved := Shifted(car, d);
    assert WellFormedCar(car, |c.gameBoard|, NumCols(c.gameBoard));
    CarCordsCells(c, k);
    ShiftedCells(car, d);
    assert Along(c, k, d) == Cells(moved);
    CarFromItsCells(moved);
    DistinctNames(c);
    ReplaceAt(c.cars, k, moved);
    OwnCells(c, k);
    MovedIsSlideBoard(c.gameBoard, car, d);
  }

  /** The reference list of neighbors from car `k`: its forward then its backward one-cell slide, when free. */
  ghost function SlidesOf(c: JamConfiguration, k: nat): seq<JamConfiguration>
    requires Consistent(c) && k < |c.cars|
  {
    (if CanSlide(c, k, 1) then [Slide(c, k, 1)] else []) +
    (if CanSlide(c, k, -1) then [Slide(c, k, -1)] else [])
  }

  ghost function AllSlides(c: JamConfiguration): (parts: seq<seq<JamConfiguration>>)
    requires Consistent(c)
    ensures |parts| == |c.cars|
  {
    seq(|c.cars|, k requires 0 <= k < |c.cars| => SlidesOf(c, k))
  }

  /** What a car contributes is its free one-cell slides. */
  lemma CarNeighborsAreSlides(c: JamConfiguration, k: nat)
    requires Consistent(c) && k < |c.cars|
    ensures CarNeighbors(c, k) == SlidesOf(c, k)
  {
    CanStepIff(c, k, 1);
    CanStepIff(c, k, -1);
    StepIsSlide(c, k, 1);
    StepIsSlide(c, k, -1);
  }

  /** getNeighbors' list is the reference list, in the same order. */
  lemma NeighborsAreSlides(c: JamConfiguration)
    requires Consistent(c)
    ensures PerCar(c) == AllSlides(c)
    ensures Neighbors(c) == Flatten(AllSlides(c))
  {
    forall k | 0 <= k < |c.cars| ensures PerCar(c)[k] == AllSlides(c)[k] {
      CarNeighborsAreSlides(c, k);
    }
  }

  /**
   * The neighbors are exactly the configurations reached by sliding one car
   * one cell into an empty cell: every such slide is a neighbor ...
   */
  lemma SlideIsNeighbor(c: JamConfiguration, k: nat, d: int)
    requires Consistent(c) && k < |c.cars| && (d == 1 || d == -1) && CanSlide(c, k, d)
    ensures Slide(c, k, d) in Neighbors(c)
  {
    NeighborsAreSlides(c);
    var own := AllSlides(c)[k];
    assert own == SlidesOf(c, k);
    assert Slide(c, k, d) in own;
    InFlatten(AllSlides(c), k, Slide(c, k, d));
  }

  /** ... and every neighbor is such a slide, of the car and in the direction returned. */
  lemma NeighborIsSlide(c: JamConfiguration, n: JamConfiguration) returns (k: nat, d: int)
    requires Consistent(c) && n in Neighbors(c)
    ensures k < |c.cars| && (d == 1 || d == -1) && CanSlide(c, k, d) && n == Slide(c, k, d)
  {
    NeighborsAreSlides(c);
    k := FlattenSource(AllSlides(c), n);
    var own := AllSlides(c)[k];
    assert own == SlidesOf(c, k);
    d := SlideOfCar(c, k, n);
  }

  /** A configuration in car `k`'s reference list is its slide forward or back. */
  lemma SlideOfCar(c: JamConfiguration, k: nat, n: JamConfiguration) returns (d: int)
    requires Consistent(c) && k < |c.cars| && n in SlidesOf(c, k)
    ensures (d == 1 || d == -1) && CanSlide(c, k, d) && n == Slide(c, k, d)
  {
    d := if CanSlide(c, k, 1) && n == Slide(c, k, 1) then 1 else -1;
  }

  /** Every neighbor's car map is consistent with its board. */
  lemma NeighborsConsistent(c: JamConfiguration)
    requires Consistent(c)
    ensures forall n :: n in Neighbors(c) ==> Consistent(n)
  {
    forall n | n in Neighbors(c) ensures Consistent(n) {
      var k, d := NeighborIsSlide(c, n);
      SlideConsistent(c, k, d);
    }
  }

  /** Moves can be taken back: each configuration is a neighbor of its neighbors. */
  lemma NeighborsSymmetric(c: JamConfiguration, n: JamConfiguration)
    requires Consistent(c) && n in Neighbors(c)
    ensures Consistent(n) && c in Neighbors(n)
  {
    var k, d := NeighborIsSlide(c, n);
    SlideConsistent(c, k, d);
    SlideBackListed(c, k, d);
  }

  /** The configuration a slide started from is a neighbor of the slid one. */
  lemma SlideBackListed(c: JamConfiguration, k: nat, d: int)
    requires Consistent(c) && k < |c.cars| && (d == 1 || d == -1) && CanSlide(c, k, d)
    ensures Consistent(Slide(c, k, d)) && c in Neighbors(Slide(c, k, d))
  {
    var s := Slide(c, k, d);
    SlideConsistent(c, k, d);
    SlideBack(c, k, d);
    SlideIsNeighbor(s, k, -d);
  }

  /** The forEach that builds the new coordinates: each one moved by (dr, dc). */
  method ShiftEach(cords: seq<Coordinates>, dr: int, dc: int) returns (newCords: seq<Coordinates>)
    ensures |newCords| == |cords|
    ensures forall i :: 0 <= i < |cords| ==>
      newCords[i].row - cords[i].row == dr && newCords[i].col - cords[i].col == dc
  {
    newCords := [];
    for i := 0 to |cords|
      invariant |newCords| == i
      invariant forall j :: 0 <= j < i ==> newCords[j] == Coordinates(cords[j].row + dr, cords[j].col + dc)
    {
      newCords := newCords + [Coordinates(cords[i].row + dr, cords[i].col + dc)];
    }
  }

  /** When the test passes, the moved coordinates all lie on the board. */
  lemma StepInBounds(c: JamConfiguration, k: nat, d: int)
    requires Consistent(c) && k < |c.cars| && (d == 1 || d == -1) && CanStep(c, k, d)
    ensures |Along(c, k, d)| > 0
    ensures forall x :: x in Along(c, k, d) ==> InBounds(c.gameBoard, x)
  {
    CanStepIff(c, k, d);
    CarCordsCells(c, k);
    ShiftedCells(c.cars[k], d);
  }

  /** One neighbor as the source builds it: new coordinates by the forEach, then the copy constructor. */
  method StepTo(c: JamConfiguration, car: Car, cords: seq<Coordinates>, dr: int, dc: int) returns (n: JamConfiguration)
    requires Rectangular(c.gameBoard) && |car.carName| > 0 && |cords| > 0
    requires forall x :: x in Shift(cords, dr, dc) ==> InBounds(c.gameBoard, x)
    ensures n == Moved(c, car, Shift(cords, dr, dc))
  {
    var newCords := ShiftEach(cords, dr, dc);
    assert newCords == Shift(cords, dr, dc);
    n := CopyWithMove(c, car, newCords);
  }

  lemma CanStepTest(c: JamConfiguration, k: nat, cords: seq<Coordinates>)
    requires Consistent(c) && k < |c.cars| && cords == CarCords(c, k)
    ensures |cords| > 0 && InBounds(c.gameBoard, cords[0]) && InBounds(c.gameBoard, cords[|cords| - 1])
    ensures 0 <= c.cars[k].startingRow < |c.gameBoard| && 0 <= c.cars[k].startingCol < NumCols(c.gameBoard)
    ensures CanStep(c, k, 1) == MoveTest(c.gameBoard, c.cars[k], cords, 1)
    ensures CanStep(c, k, -1) == MoveTest(c.gameBoard, c.cars[k], cords, -1)
  {
    CarCordsEnds(c, k);
  }

  /** One neighbor of car `k` whose test passed: new coordinates by the forEach, then the copy constructor. */
  method StepOf(c: JamConfiguration, k: nat, cords: seq<Coordinates>, d: int) returns (n: JamConfiguration)
    requires Consistent(c) && k < |c.cars| && (d == 1 || d == -1)
    requires cords == CarCords(c, k) && CanStep(c, k, d)
    ensures n == Step(c, k, d)
  {
    StepInBounds(c, k, d);
    CarCordsNonEmpty(c, k);
    assert |c.cars[k].carName| > 0;
    if MovesSideways(c.cars[k]) {
      n := StepTo(c, c.cars[k], cords, 0, d);
    } else {
      n := StepTo(c, c.cars[k], cords, d, 0);
    }
  }

  /** The moves of a car that moves sideways: right, then left. */
  method SidewaysNeighbors(c: JamConfiguration, k: nat, cords: seq<Coordinates>) returns (fromCar: seq<JamConfiguration>)
    requires Consistent(c) && k < |c.cars| && cords == CarCords(c, k) && MovesSideways(c.cars[k])
    ensures fromCar == CarNeighbors(c, k)
  {
    CanStepTest(c, k, cords);
    var g := c.gameBoard;
    var row := c.cars[k].startingRow;
    var first, last := cords[0], cords[|cords| - 1];
    var right: seq<JamConfiguration> := [];
    assert MoveTest(g, c.cars[k], cords, 1) == (last.col < NumCols(g) - 1 && g[row][last.col + 1] == EMPTY);
    if last.col < NumCols(g) - 1 && g[row][last.col + 1] == EMPTY {
      var n := StepOf(c, k, cords, 1);
      right := [n];
    }
    assert right == if CanStep(c, k, 1) then [Step(c, k, 1)] else [];
    var left: seq<JamConfiguration> := [];
    assert MoveTest(g, c.cars[k], cords, -1) == (first.col > 0 && g[row][first.col - 1] == EMPTY);
    if first.col > 0 && g[row][first.col - 1] == EMPTY {
      var n := StepOf(c, k, cords, -1);
      left := [n];
    }
    assert left == if CanStep(c, k, -1) then [Step(c, k, -1)] else [];
    fromCar := right + left;
  }

  /** The moves of a car that moves up and down: down, then up. */
  method VerticalNeighbors(c: JamConfiguration, k: nat, cords: seq<Coordinates>) returns (fromCar: seq<JamConfiguration>)
    requires Consistent(c) && k < |c.cars| && cords == CarCords(c, k) && !MovesSideways(c.cars[k])
    ensures fromCar == CarNeighbors(c, k)
  {
    CanStepTest(c, k, cords);
    var g := c.gameBoard;
    var col := c.cars[k].startingCol;
    var first, last := cords[0], cords[|cords| - 1];
    var down: seq<JamConfiguration> := [];
    assert MoveTest(g, c.cars[k], cords, 1) == (last.row < |g| - 1 && g[last.row + 1][col] == EMPTY);
    if last.row < |g| - 1 && g[last.row + 1][col] == EMPTY {
      var n := StepOf(c, k, cords, 1);
      down := [n];
    }
    assert down == if CanStep(c, k, 1) then [Step(c, k, 1)] else [];
    var up: seq<JamConfiguration> := [];
    assert MoveTest(g, c.cars[k], cords, -1) == (first.row > 0 && g[first.row - 1][col] == EMPTY);
    if first.row > 0 && g[first.row - 1][col] == EMPTY {
      var n := StepOf(c, k, cords, -1);
      up := [n];
    }
    assert up == if CanStep(c, k, -1) then [Step(c, k, -1)] else [];
    fromCar := down + up;
  }

  /** The body of the loop over cars: the scan of the car's cells, then its moves along its axis. */
  method NeighborsOfCar(c: JamConfiguration, k: nat) returns (fromCar: seq<JamConfiguration>)
    requires Consistent(c) && k < |c.cars|
    ensures fromCar == CarNeighbors(c, k)
  {
    var currentCar := c.cars[k];
    var cords := GetAllCarCoordinates(c, currentCar);
    assert cords == CarCords(c, k);
    fromCar := [];
    if MovesSideways(currentCar) {
      fromCar := SidewaysNeighbors(c, k, cords);
    }
    if !MovesSideways(currentCar) {
      fromCar := VerticalNeighbors(c, k, cords);
    }
  }

  /** getNeighbors: for each car in map order, the moves it can make. */
  method GetNeighbors(c: JamConfiguration) returns (neighbors: seq<JamConfiguration>)
    requires Consistent(c)
    ensures neighbors == Neighbors(c)
  {
    neighbors := [];
    for k := 0 to |c.cars|
      invariant neighbors == Flatten(PerCar(c)[..k])
    {
      var fromCar := NeighborsOfCar(c, k);
      assert PerCar(c)[..k + 1][..k] == PerCar(c)[..k];
      neighbors := neighbors + fromCar;
    }
    assert PerCar(c)[..|c.cars|] == PerCar(c);
  }
}
