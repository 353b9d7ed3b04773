/**
 * A car: an immutable, named, straight piece given by its starting and
 * ending row and column. A moved car is a new value.
 */
module Cars {
  import opened Coords

  datatype Car = Car(carName: string, startingRow: int, startingCol: int, endingRow: int, endingCol: int)

  /** A car moves sideways exactly when it starts and ends on the same row. */
  predicate MovesSideways(car: Car) {
    car.startingRow == car.endingRow
  }

  /** The number of cells between two bounds, inclusive; zero when they are reversed. */
  function Span(lo: int, hi: int): nat {
    if lo <= hi then hi - lo + 1 else 0
  }

  /**
   * The cells the board constructor stamps with the car's letter: along its row
   * from the starting to the ending column when it moves sideways, otherwise
   * down its column from the starting to the ending row.
   */
  function Cells(car: Car): (cells: seq<Coordinates>)
    ensures RowMajorSorted(cells)
    ensures forall x :: x in cells <==>
      if MovesSideways(car) then x.row == car.startingRow && car.startingCol <= x.col <= car.endingCol
      else x.col == car.startingCol && car.startingRow <= x.row <= car.endingRow
  {
    if MovesSideways(car) then
      var cells := seq(Span(car.startingCol, car.endingCol), i => Coordinates(car.startingRow, car.startingCol + i));
      assert forall x: Coordinates :: x.row == car.startingRow && car.startingCol <= x.col <= car.endingCol ==>
        cells[x.col - car.startingCol] == x;
      cells
    else
      var cells := seq(Span(car.startingRow, car.endingRow), i => Coordinates(car.startingRow + i, car.startingCol));
      assert forall x: Coordinates :: x.col == car.startingCol && car.startingRow <= x.row <= car.endingRow ==>
        cells[x.row - car.startingRow] == x;
      cells
  }

  /** A car as the board file describes one: a straight piece whose start does not come after its end. */
  predicate Straight(car: Car) {
    (car.startingRow == car.endingRow || car.startingCol == car.endingCol) &&
    car.startingRow <= car.endingRow && car.startingCol <= car.endingCol
  }

  /** The first and last stamped cells of a straight car are its start and its end. */
  lemma CellsEnds(car: Car)
    requires Straight(car)
    ensures |Cells(car)| > 0
    ensures Cells(car)[0] == Coordinates(car.startingRow, car.startingCol)
    ensures Cells(car)[|Cells(car)| - 1] == Coordinates(car.endingRow, car.endingCol)
  {
  }

  /** The car slid `d` cells along its own axis (columns when it moves sideways, rows otherwise). */
  function Shifted(car: Car, d: int): (moved: Car)
    ensures moved.carName == car.carName
    ensures MovesSideways(moved) == MovesSideways(car)
    ensures Straight(car) ==> Straight(moved)
    ensures MovesSideways(car) ==> moved.startingRow == car.startingRow
    ensures !MovesSideways(car) ==> moved.startingCol == car.startingCol
  {
    if MovesSideways(car) then Car(car.carName, car.startingRow, car.startingCol + d, car.endingRow, car.endingCol + d)
    else Car(car.carName, car.startingRow + d, car.startingCol, car.endingRow + d, car.endingCol)
  }

  /** Sliding a car moves each of its cells by the same distance along its axis. */
  lemma ShiftedCells(car: Car, d: int)
    ensures Cells(Shifted(car, d)) ==
      if MovesSideways(car) then Shift(Cells(car), 0, d) else Shift(Cells(car), d, 0)
  {
    var a := Cells(Shifted(car, d));
    var b := if MovesSideways(car) then Shift(Cells(car), 0, d) else Shift(Cells(car), d, 0);
    assert |a| == |b|;
    forall i | 0 <= i < |a| ensures a[i] == b[i] {
    }
  }

  /** Sliding back undoes a slide. */
  lemma ShiftedBack(car: Car, d: int)
    ensures Shifted(Shifted(car, d), -d) == car
  {
  }
}
