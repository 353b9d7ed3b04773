/**
 * The game: the board being played, the cell selected by a first click, and
 * the state of the game. A click either selects a car or, as the second
 * click, tries to drive the selected car to the clicked cell; a hint plays
 * the first move of a shortest solution. What the observers are told is
 * returned as a `Notice`.
 */
module Game {
  import opened Wrappers
  import opened Coords
  import opened Cars
  import opened Board
  import opened Moves
  import opened StateSpace
  import Search

  datatype GameState = Ongoing | AlreadySolved | Reset | Quit | StartingUp | Loading | Hint | Selection | IllegalSelection

  /**
   * What an operation tells the observers: one of the messages, nothing, or
   * the NullPointerException the source lets escape when a car-map lookup
   * finds no car or the board has no goal car.
   */
  datatype Notice =
    | NoCarAt(cell: Coordinates)
    | SelectedAt(cell: Coordinates)
    | CantMove(origin: Coordinates, target: Coordinates)
    | MovedFrom(origin: Coordinates, target: Coordinates)
    | SolvedAlready
    | NoSolutionFound
    | NextStep
    | Quiet
    | NullPointer

  /** A notice that carries a message to the observers. */
  predicate IsMessage(n: Notice) {
    !n.Quiet? && !n.NullPointer?
  }

  /** The text the observers are sent. */
  function Message(n: Notice): string
    requires IsMessage(n)
  {
    match n
    case NoCarAt(cell) => "No car at " + ToString(cell)
    case SelectedAt(cell) => "Selected " + ToString(cell)
    case CantMove(origin, target) => "Can't move from " + ToString(origin) + " to " + ToString(target)
    case MovedFrom(origin, target) => "Moved from " + ToString(origin) + " to " + ToString(target)
    case SolvedAlready => "Already solved!"
    case NoSolutionFound => "No solution"
    case NextStep => "Next Step!"
  }

  /** Of two texts that each end at their only ')', the shorter cannot be a proper prefix of the other. */
  lemma CloseAt(t: string, u: string, r: string, q: string)
    requires |t| > 0 && t[|t| - 1] == ')' && |t| <= |u|
    requires forall i :: 0 <= i < |u| - 1 ==> u[i] != ')'
    requires t + r == u + q
    ensures t == u && r == q
  {
    assert u[|t| - 1] == (u + q)[|t| - 1] == (t + r)[|t| - 1];
    assert t == (t + r)[..|t|] == (u + q)[..|u|] == u;
    assert r == (t + r)[|t|..] == (u + q)[|u|..] == q;
  }

  /** What follows a prefix in a concatenation. */
  lemma AfterPrefix(p: string, x: string, y: string, z: string)
    ensures (p + x + y + z)[|p|..] == x + (y + z)
  {
    assert p + x + y + z == p + (x + (y + z));
  }

  /** A message names the two cells it is about: the first closing parenthesis ends the first cell. */
  lemma SplitCells(p: string, a: Coordinates, b: Coordinates, a': Coordinates, b': Coordinates)
    requires p + ToString(a) + " to " + ToString(b) == p + ToString(a') + " to " + ToString(b')
    ensures a == a' && b == b'
  {
    var ta, ta' := ToString(a), ToString(a');
    var r, r' := " to " + ToString(b), " to " + ToString(b');
    AfterPrefix(p, ta, " to ", ToString(b));
    AfterPrefix(p, ta', " to ", ToString(b'));
    if |ta| <= |ta'| {
      CloseAt(ta, ta', r, r');
    } else {
      CloseAt(ta', ta, r', r);
    }
    assert ToString(b) == r[4..] == r'[4..] == ToString(b');
    ToStringInjective(a, a');
    ToStringInjective(b, b');
  }

  /** The first four characters of each kind of message, all different. */
  function Opening(n: Notice): string
    requires IsMessage(n)
  {
    match n
    case NoCarAt(_) => "No c"
    case SelectedAt(_) => "Sele"
    case CantMove(_, _) => "Can'"
    case MovedFrom(_, _) => "Move"
    case SolvedAlready => "Alre"
    case NoSolutionFound => "No s"
    case NextStep => "Next"
  }

  lemma MessageOpening(n: Notice)
    requires IsMessage(n)
    ensures |Message(n)| >= 4 && Message(n)[..4] == Opening(n)
  {
    match n
    case NoCarAt(cell) => OpensWith("No car at ", ToString(cell));
    case SelectedAt(cell) => OpensWith("Selected ", ToString(cell));
    case CantMove(origin, target) => OpensWith("Can't move from ", ToString(origin) + " to " + ToString(target));
    case MovedFrom(origin, target) => OpensWith("Moved from ", ToString(origin) + " to " + ToString(target));
    case _ =>
  }

  /** A text opens as its first part does. */
  lemma OpensWith(p: string, x: string)
    requires |p| >= 4
    ensures |p + x| >= 4 && (p + x)[..4] == p[..4]
  {
  }

  /** Messages of different kinds open differently. */
  lemma SameOpening(m: Notice, n: Notice)
    requires IsMessage(m) && IsMessage(n) && Opening(m) == Opening(n)
    ensures m.NoCarAt? == n.NoCarAt? && m.SelectedAt? == n.SelectedAt?
    ensures m.CantMove? == n.CantMove? && m.MovedFrom? == n.MovedFrom?
    ensures m.SolvedAlready? == n.SolvedAlready? && m.NoSolutionFound? == n.NoSolutionFound?
  {
  }

  /** A message naming one cell names it unambiguously. */
  lemma SplitCell(p: string, a: Coordinates, a': Coordinates)
    requires p + ToString(a) == p + ToString(a')
    ensures a == a'
  {
    var s := p + ToString(a);
    assert ToString(a) == s[|p|..] == ToString(a');
    ToStringInjective(a, a');
  }

  /** Different notices send different messages, so the observers can tell what happened. */
  lemma MessageInjective(m: Notice, n: Notice)
    requires IsMessage(m) && IsMessage(n) && Message(m) == Message(n)
    ensures m == n
  {
    MessageOpening(m);
    MessageOpening(n);
    SameOpening(m, n);
    match m
    case NoCarAt(cell) =>
      SplitCell("No car at ", cell, n.cell);
    case SelectedAt(cell) =>
      SplitCell("Selected ", cell, n.cell);
    case CantMove(origin, target) =>
      SplitCells("Can't move from ", origin, target, n.origin, n.target);
    case MovedFrom(origin, target) =>
      SplitCells("Moved from ", origin, target, n.origin, n.target);
    case _ =>
  }

  // ---------------------------------------------------------------------
  // The second click: which drives are allowed
  // ---------------------------------------------------------------------

  predicate Between(a: int, b: int, x: int) {
    a <= x <= b || b <= x <= a
  }

  /** The cells of `row` from column `from` to column `to`, either way, hold EMPTY or `letter`. */
  predicate RowClear(g: Grid, row: int, start: int, stop: int, letter: char)
    requires Rectangular(g) && 0 <= row < |g| && 0 <= start < NumCols(g) && 0 <= stop < NumCols(g)
  {
    forall col :: 0 <= col < |g[row]| && Between(start, stop, col) ==> g[row][col] == EMPTY || g[row][col] == letter
  }

  /** The cells of column `col` from row `from` to row `to`, either way, hold EMPTY or `letter`. */
  predicate ColumnClear(g: Grid, col: int, start: int, stop: int, letter: char)
    requires Rectangular(g) && 0 <= col < NumCols(g) && 0 <= start < |g| && 0 <= stop < |g|
  {
    forall row :: 0 <= row < |g| && Between(start, stop, row) ==> g[row][col] == EMPTY || g[row][col] == letter
  }

  /** The target lies on the line the car moves along. */
  predicate OnLane(car: Car, target: Coordinates) {
    if MovesSideways(car) then target.row == car.startingRow else target.col == car.startingCol
  }

  /**
   * How far a drive to `target` moves the car along its axis: to the target
   * from the nearer end, and not at all when the target is inside the car.
   */
  function Distance(car: Car, target: Coordinates): int {
    if MovesSideways(car) then
      if target.col < car.startingCol then target.col - car.startingCol
      else if target.col > car.endingCol then target.col - car.endingCol
      else 0
    else
      if target.row < car.startingRow then target.row - car.startingRow
      else if target.row > car.endingRow then target.row - car.endingRow
      else 0
  }

  /** Car `k` can be driven `d` cells: every slide on the way, of 0 up to `d` cells, is free. */
  ghost predicate CanDrive(c: JamConfiguration, k: nat, d: int)
    requires Rectangular(c.gameBoard) && k < |c.cars|
  {
    forall e :: Between(0, d, e) ==> CanSlide(c, k, e)
  }

  /**
   * What the second click relies on about the selected car: it is straight
   * and on the board, and the scan for its letter finds exactly its cells.
   */
  predicate Selectable(c: JamConfiguration, curr: Car) {
    var g := c.gameBoard;
    Rectangular(g) && WellFormedCar(curr, |g|, NumCols(g)) && AllCarCoordinates(g, curr.carName[0]) == Cells(curr)
  }

  /** Every car of a consistent board can be selected. */
  lemma SelectedCar(c: JamConfiguration, curr: Car)
    requires Consistent(c) && curr in c.cars
    ensures Selectable(c, curr)
  {
    var k :| 0 <= k < |c.cars| && c.cars[k] == curr;
    assert WellFormedCar(curr, |c.gameBoard|, NumCols(c.gameBoard));
  }

  /** The scan for a selectable car's letter runs from the car's start to its end. */
  lemma SelectedEnds(c: JamConfiguration, curr: Car)
    requires Selectable(c, curr)
    ensures var cords := AllCarCoordinates(c.gameBoard, curr.carName[0]);
      |cords| > 0 &&
      cords[0] == Coordinates(curr.startingRow, curr.startingCol) &&
      cords[|cords| - 1] == Coordinates(curr.endingRow, curr.endingCol)
    ensures 0 <= curr.startingRow <= curr.endingRow < |c.gameBoard|
    ensures 0 <= curr.startingCol <= curr.endingCol < NumCols(c.gameBoard)
  {
    CellsEnds(curr);
  }

  /**
   * The drive of the selected car once the click is accepted: the car moves
   * along its axis the distance to the target from its nearer end, onto the
   * cells of the shifted car; when the target is inside the car nothing
   * changes.
   */
  function Drive(c: JamConfiguration, curr: Car, second: Coordinates): JamConfiguration
    requires Selectable(c, curr)
  {
    var d := Distance(curr, second);
    if d == 0 then c else Moved(c, curr, Cells(Shifted(curr, d)))
  }

  /**
   * The second click on a car that moves sideways: rejected when a cell of
   * its row from its starting column to the target column holds another car,
   * or when the target is on another row; otherwise the car is driven.
   */
  function SidewaysClick(c: JamConfiguration, curr: Car, first: Coordinates, second: Coordinates): (JamConfiguration, Notice)
    requires Selectable(c, curr) && MovesSideways(curr)
    requires InBounds(c.gameBoard, first) && InBounds(c.gameBoard, second)
  {
    SelectedEnds(c, curr);
    if !RowClear(c.gameBoard, curr.startingRow, curr.startingCol, second.col, curr.carName[0]) || first.row != second.row then
      (c, CantMove(first, second))
    else
      (Drive(c, curr, second), MovedFrom(first, second))
  }

  /** The second click on a car that moves up and down: the same along its column. */
  function VerticalClick(c: JamConfiguration, curr: Car, first: Coordinates, second: Coordinates): (JamConfiguration, Notice)
    requires Selectable(c, curr) && !MovesSideways(curr)
    requires InBounds(c.gameBoard, first) && InBounds(c.gameBoard, second)
  {
    SelectedEnds(c, curr);
    if !ColumnClear(c.gameBoard, curr.startingCol, curr.startingRow, second.row, curr.carName[0]) || first.col != second.col then
      (c, CantMove(first, second))
    else
      (Drive(c, curr, second), MovedFrom(first, second))
  }

  /** The click on the axis of the selected car. */
  function AxisClick(c: JamConfiguration, curr: Car, first: Coordinates, second: Coordinates): (JamConfiguration, Notice)
    requires Selectable(c, curr) && InBounds(c.gameBoard, first) && InBounds(c.gameBoard, second)
  {
    if MovesSideways(curr) then SidewaysClick(c, curr, first, second)
    else VerticalClick(c, curr, first, second)
  }

  /**
   * The second click: the car is looked up in the car map by the one-letter
   * name read from the selected cell (no car: the exception escapes), then
   * driven along its axis.
   */
  function SecondClick(c: JamConfiguration, first: Coordinates, second: Coordinates): (r: (JamConfiguration, Notice))
    requires Consistent(c) && InBounds(c.gameBoard, first) && InBounds(c.gameBoard, second)
    ensures r.1 == NullPointer <==> Lookup(c.cars, [At(c.gameBoard, first)]).None?
    ensures r.1 != MovedFrom(first, second) ==> r.0 == c
    ensures Consistent(r.0) && |r.0.gameBoard| == |c.gameBoard| && NumCols(r.0.gameBoard) == NumCols(c.gameBoard)
  {
    match Lookup(c.cars, [At(c.gameBoard, first)])
    case None => (c, NullPointer)
    case Some(curr) =>
      SelectedCar(c, curr);
      SecondClickConsistent(c, first, second);
      AxisClick(c, curr, first, second)
  }

  // ---------------------------------------------------------------------
  // The second click is a free drive
  // ---------------------------------------------------------------------

  /** Shifting by equal offsets gives the same cells. */
  lemma SameShift(cells: seq<Coordinates>, dr: int, dc: int, dr': int, dc': int)
    requires dr == dr' && dc == dc'
    ensures Shift(cells, dr, dc) == Shift(cells, dr', dc')
  {
  }

  /** Moving car `k` onto the cells of the car shifted by `d` is the reference slide. */
  lemma MovedIsSlide(c: JamConfiguration, k: nat, d: int)
    requires Consistent(c) && k < |c.cars|
    ensures Moved(c, c.cars[k], Cells(Shifted(c.cars[k], d))) == Slide(c, k, d)
  {
    StepIsSlide(c, k, d);
    CarCordsCells(c, k);
    ShiftedCells(c.cars[k], d);
    assert Along(c, k, d) == Cells(Shifted(c.cars[k], d));
  }


  /** Along a row, the scan from the car's start to the target is clear exactly when the drive there is free. */
  lemma RowClearIsDrive(c: JamConfiguration, k: nat, col: int)
    requires Consistent(c) && k < |c.cars| && MovesSideways(c.cars[k]) && 0 <= col < NumCols(c.gameBoard)
    ensures c.cars[k].startingRow < |c.gameBoard| && c.cars[k].startingCol < NumCols(c.gameBoard)
    ensures var car := c.cars[k];
      RowClear(c.gameBoard, car.startingRow, car.startingCol, col, Letter(c, k)) <==>
      CanDrive(c, k, Distance(car, Coordinates(car.startingRow, col)))
  {
    var g := c.gameBoard;
    var car := c.cars[k];
    var row, s, t := car.startingRow, car.startingCol, car.endingCol;
    var d := Distance(car, Coordinates(row, col));
    assert WellFormedCar(car, |g|, NumCols(g));
    OwnCells(c, k);
    if RowClear(g, row, s, col, Letter(c, k)) {
      forall e, y | Between(0, d, e) && y in Cells(Shifted(car, e))
        ensures InBounds(g, y) && (At(g, y) == EMPTY || y in Cells(car))
      {
        assert y.row == row && s + e <= y.col <= t + e;
        if !(s <= y.col <= t) {
          assert Between(s, col, y.col);
        }
      }
    }
    if CanDrive(c, k, d) {
      forall x | Between(s, col, x) ensures g[row][x] == EMPTY || g[row][x] == Letter(c, k) {
        var y := Coordinates(row, x);
        if x < s {
          assert y in Cells(Shifted(car, x - s));
        } else if x > t {
          assert y in Cells(Shifted(car, x - t));
        } else {
          assert y in Cells(car);
        }
        assert CanSlide(c, k, if x < s then x - s else if x > t then x - t else 0);
      }
    }
  }

  /** Down a column, the scan from the car's start to the target is clear exactly when the drive there is free. */
  lemma ColumnClearIsDrive(c: JamConfiguration, k: nat, row: int)
    requires Consistent(c) && k < |c.cars| && !MovesSideways(c.cars[k]) && 0 <= row < |c.gameBoard|
    ensures c.cars[k].startingRow < |c.gameBoard| && c.cars[k].startingCol < NumCols(c.gameBoard)
    ensures var car := c.cars[k];
      ColumnClear(c.gameBoard, car.startingCol, car.startingRow, row, Letter(c, k)) <==>
      CanDrive(c, k, Distance(car, Coordinates(row, car.startingCol)))
  {
    var g := c.gameBoard;
    var car := c.cars[k];
    var col, s, t := car.startingCol, car.startingRow, car.endingRow;
    var d := Distance(car, Coordinates(row, col));
    assert WellFormedCar(car, |g|, NumCols(g));
    OwnCells(c, k);
    if ColumnClear(g, col, s, row, Letter(c, k)) {
      forall e, y | Between(0, d, e) && y in Cells(Shifted(car, e))
        ensures InBounds(g, y) && (At(g, y) == EMPTY || y in Cells(car))
      {
        assert y.col == col && s + e <= y.row <= t + e;
        if !(s <= y.row <= t) {
          assert Between(s, row, y.row);
        }
      }
    }
    if CanDrive(c, k, d) {
      forall x | Between(s, row, x) ensures g[x][col] == EMPTY || g[x][col] == Letter(c, k) {
        var y := Coordinates(x, col);
        if x < s {
          assert y in Cells(Shifted(car, x - s));
        } else if x > t {
          assert y in Cells(Shifted(car, x - t));
        } else {
          assert y in Cells(car);
        }
        assert CanSlide(c, k, if x < s then x - s else if x > t then x - t else 0);
      }
    }
  }

  /** Sliding a car of a consistent board by zero cells leaves the configuration as it was. */
  lemma SlideNothing(c: JamConfiguration, k: nat)
    requires Consistent(c) && k < |c.cars|
    ensures Slide(c, k, 0) == c
  {
    var s := Slide(c, k, 0);
    assert s.cars == c.cars;
    forall i | 0 <= i < |c.gameBoard| ensures s.gameBoard[i] == c.gameBoard[i] {
      forall j | 0 <= j < NumCols(c.gameBoard) ensures s.gameBoard[i][j] == c.gameBoard[i][j] {
        OwnCells(c, k);
        assert InBounds(c.gameBoard, Coordinates(i, j));
      }
    }
  }

  /**
   * The second click on car `k`, selected at `first`, accepts exactly the
   * targets on the car's lane that it can be driven to freely; an accepted
   * click drives it the distance to the target from its nearer end, and a
   * rejected one leaves the board as it was.
   */
  lemma AxisClickIsDrive(c: JamConfiguration, k: nat, first: Coordinates, second: Coordinates)
    requires Consistent(c) && k < |c.cars|
    requires InBounds(c.gameBoard, first) && InBounds(c.gameBoard, second) && first in Cells(c.cars[k])
    ensures Selectable(c, c.cars[k])
    ensures var r := AxisClick(c, c.cars[k], first, second);
      r.1 == MovedFrom(first, second) <==> OnLane(c.cars[k], second) && CanDrive(c, k, Distance(c.cars[k], second))
    ensures var r := AxisClick(c, c.cars[k], first, second);
      r.1 != MovedFrom(first, second) ==> r == (c, CantMove(first, second))
    ensures var r := AxisClick(c, c.cars[k], first, second);
      r.1 == MovedFrom(first, second) ==> r.0 == Slide(c, k, Distance(c.cars[k], second)) && Consistent(r.0)
  {
    var car := c.cars[k];
    SelectedCar(c, car);
    var d := Distance(car, second);
    SelectedEnds(c, car);
    if MovesSideways(car) {
      RowClearIsDrive(c, k, second.col);
      assert Distance(car, Coordinates(car.startingRow, second.col)) == d;
    } else {
      ColumnClearIsDrive(c, k, second.row);
      assert Distance(car, Coordinates(second.row, car.startingCol)) == d;
    }
    var r := AxisClick(c, car, first, second);
    if r.1 == MovedFrom(first, second) {
      assert CanSlide(c, k, d);
      SlideConsistent(c, k, d);
      if d == 0 {
        SlideNothing(c, k);
      } else {
        MovedIsSlide(c, k, d);
      }
    }
  }

  /**
   * When the selected cell's letter names a car, the second click drives that
   * car as described above.
   */
  lemma SecondClickDrives(c: JamConfiguration, first: Coordinates, second: Coordinates) returns (k: nat)
    requires Consistent(c) && InBounds(c.gameBoard, first) && InBounds(c.gameBoard, second)
    requires Lookup(c.cars, [At(c.gameBoard, first)]).Some?
    ensures k < |c.cars| && c.cars[k] == Lookup(c.cars, [At(c.gameBoard, first)]).value
    ensures first in Cells(c.cars[k]) && Selectable(c, c.cars[k])
    ensures var r := AxisClick(c, c.cars[k], first, second);
      r.1 == MovedFrom(first, second) <==> OnLane(c.cars[k], second) && CanDrive(c, k, Distance(c.cars[k], second))
    ensures var r := AxisClick(c, c.cars[k], first, second);
      r.1 != MovedFrom(first, second) ==> r == (c, CantMove(first, second))
    ensures var r := AxisClick(c, c.cars[k], first, second);
      r.1 == MovedFrom(first, second) ==> r.0 == Slide(c, k, Distance(c.cars[k], second)) && Consistent(r.0)
  {
    var curr := Lookup(c.cars, [At(c.gameBoard, first)]).value;
    k :| 0 <= k < |c.cars| && c.cars[k] == curr;
    OwnCells(c, k);
    AxisClickIsDrive(c, k, first, second);
  }

  /** Whatever the second click does to a car, the board stays consistent and keeps its size. */
  lemma SecondClickConsistent(c: JamConfiguration, first: Coordinates, second: Coordinates)
    requires Consistent(c) && InBounds(c.gameBoard, first) && InBounds(c.gameBoard, second)
    requires Lookup(c.cars, [At(c.gameBoard, first)]).Some?
    ensures Selectable(c, Lookup(c.cars, [At(c.gameBoard, first)]).value)
    ensures var n := AxisClick(c, Lookup(c.cars, [At(c.gameBoard, first)]).value, first, second).0;
      Consistent(n) && |n.gameBoard| == |c.gameBoard| && NumCols(n.gameBoard) == NumCols(c.gameBoard)
  {
    var k := SecondClickDrives(c, first, second);
  }


  // ---------------------------------------------------------------------
  // The second click as the source writes it
  // ---------------------------------------------------------------------

  /** The two scans along the row: rightwards from the start column, then leftwards, each stopping at a blocked cell. */
  method ScanRow(g: Grid, row: int, start: int, stop: int, letter: char) returns (clear: bool)
    requires Rectangular(g) && 0 <= row < |g| && 0 <= start < NumCols(g) && 0 <= stop < NumCols(g)
    ensures clear == RowClear(g, row, start, stop, letter)
  {
    var col := start;
    while col <= stop
      decreases stop - col
      invariant start <= col <= stop + 1 || col == start
      invariant forall x :: start <= x < col ==> (g[row][x] == EMPTY || g[row][x] == letter)
    {
      if g[row][col] != EMPTY && g[row][col] != letter {
        return false;
      }
      col := col + 1;
    }
    col := start;
    while col >= stop
      decreases col - stop
      invariant col == start || stop - 1 <= col <= start
      invariant forall x :: col < x <= start ==> (g[row][x] == EMPTY || g[row][x] == letter)
    {
      if g[row][col] != EMPTY && g[row][col] != letter {
        return false;
      }
      col := col - 1;
    }
    return true;
  }

  /** The two scans along the column: downwards from the start row, then upwards. */
  method ScanColumn(g: Grid, col: int, start: int, stop: int, letter: char) returns (clear: bool)
    requires Rectangular(g) && 0 <= col < NumCols(g) && 0 <= start < |g| && 0 <= stop < |g|
    ensures clear == ColumnClear(g, col, start, stop, letter)
  {
    var row := start;
    while row <= stop
      decreases stop - row
      invariant start <= row <= stop + 1 || row == start
      invariant forall x :: start <= x < row ==> (g[x][col] == EMPTY || g[x][col] == letter)
    {
      if g[row][col] != EMPTY && g[row][col] != letter {
        return false;
      }
      row := row + 1;
    }
    row := start;
    while row >= stop
      decreases row - stop
      invariant row == start || stop - 1 <= row <= start
      invariant forall x :: row < x <= start ==> (g[x][col] == EMPTY || g[x][col] == letter)
    {
      if g[row][col] != EMPTY && g[row][col] != letter {
        return false;
      }
      row := row - 1;
    }
    return true;
  }

  /**
   * Shifting the listed cells of the selected car by the distance to the
   * target, along its axis, gives the cells of the shifted car, and these
   * are on the board.
   */
  lemma DriveBy(c: JamConfiguration, curr: Car, second: Coordinates, cords: seq<Coordinates>, dr: int, dc: int)
    requires Selectable(c, curr) && InBounds(c.gameBoard, second) && cords == Cells(curr)
    requires if MovesSideways(curr) then dr == 0 && dc == Distance(curr, second) else dc == 0 && dr == Distance(curr, second)
    ensures Shift(cords, dr, dc) == Cells(Shifted(curr, Distance(curr, second)))
    ensures forall x :: x in Shift(cords, dr, dc) ==> InBounds(c.gameBoard, x)
  {
    var d := Distance(curr, second);
    ShiftedCells(curr, d);
    if MovesSideways(curr) {
      SameShift(cords, dr, dc, 0, d);
    } else {
      SameShift(cords, dr, dc, d, 0);
    }
    SelectedEnds(c, curr);
  }

  /** The drive of a car that moves sideways as the source writes it: the scan, the shifted copy, the copy constructor. */
  method DriveSideways(c: JamConfiguration, curr: Car, second: Coordinates) returns (next: JamConfiguration)
    requires Selectable(c, curr) && MovesSideways(curr) && InBounds(c.gameBoard, second)
    ensures next == Drive(c, curr, second)
  {
    SelectedEnds(c, curr);
    CellsEnds(curr);
    var currCarCords := GetAllCarCoordinates(c, curr);
    var firstCurrCords, lastingCurrCords := currCarCords[0], currCarCords[|currCarCords| - 1];
    next := c;
    if second.col < firstCurrCords.col {
      var distanceToMove := firstCurrCords.col - second.col;
      DriveBy(c, curr, second, currCarCords, 0, -distanceToMove);
      next := StepTo(c, curr, currCarCords, 0, -distanceToMove);
    } else if second.col > lastingCurrCords.col {
      var distanceToMove := second.col - lastingCurrCords.col;
      DriveBy(c, curr, second, currCarCords, 0, distanceToMove);
      next := StepTo(c, curr, currCarCords, 0, distanceToMove);
    }
  }

  /** The drive of a car that moves up and down as the source writes it. */
  method DriveVertical(c: JamConfiguration, curr: Car, second: Coordinates) returns (next: JamConfiguration)
    requires Selectable(c, curr) && !MovesSideways(curr) && InBounds(c.gameBoard, second)
    ensures next == Drive(c, curr, second)
  {
    SelectedEnds(c, curr);
    CellsEnds(curr);
    var currCarCords := GetAllCarCoordinates(c, curr);
    var firstCurrCords, lastingCurrCords := currCarCords[0], currCarCords[|currCarCords| - 1];
    next := c;
    if second.row < firstCurrCords.row {
      var distanceToMove := firstCurrCords.row - second.row;
      DriveBy(c, curr, second, currCarCords, -distanceToMove, 0);
      next := StepTo(c, curr, currCarCords, -distanceToMove, 0);
    } else if second.row > lastingCurrCords.row {
      var distanceToMove := second.row - lastingCurrCords.row;
      DriveBy(c, curr, second, currCarCords, distanceToMove, 0);
      next := StepTo(c, curr, currCarCords, distanceToMove, 0);
    }
  }

  /** The branch for a car that moves sideways: the two scans, the row check, then the drive. */
  method SidewaysMove(c: JamConfiguration, curr: Car, first: Coordinates, second: Coordinates)
    returns (next: JamConfiguration, notice: Notice)
    requires Selectable(c, curr) && MovesSideways(curr)
    requires InBounds(c.gameBoard, first) && InBounds(c.gameBoard, second)
    ensures (next, notice) == SidewaysClick(c, curr, first, second)
  {
    SelectedEnds(c, curr);
    var clear := ScanRow(c.gameBoard, curr.startingRow, curr.startingCol, second.col, curr.carName[0]);
    if !clear || first.row != second.row {
      return c, CantMove(first, second);
    }
    next := DriveSideways(c, curr, second);
    notice := MovedFrom(first, second);
  }

  /** The branch for a car that moves up and down: the two scans, the column check, then the drive. */
  method VerticalMove(c: JamConfiguration, curr: Car, first: Coordinates, second: Coordinates)
    returns (next: JamConfiguration, notice: Notice)
    requires Selectable(c, curr) && !MovesSideways(curr)
    requires InBounds(c.gameBoard, first) && InBounds(c.gameBoard, second)
    ensures (next, notice) == VerticalClick(c, curr, first, second)
  {
    SelectedEnds(c, curr);
    var clear := ScanColumn(c.gameBoard, curr.startingCol, curr.startingRow, second.row, curr.carName[0]);
    if !clear || first.col != second.col {
      return c, CantMove(first, second);
    }
    next := DriveVertical(c, curr, second);
    notice := MovedFrom(first, second);
  }

  /** The second click as the source writes it: the lookup, then the branch for the car's axis. */
  method SecondClickMove(c: JamConfiguration, first: Coordinates, second: Coordinates)
    returns (next: JamConfiguration, notice: Notice)
    requires Consistent(c) && InBounds(c.gameBoard, first) && InBounds(c.gameBoard, second)
    ensures (next, notice) == SecondClick(c, first, second)
  {
    var car := [c.gameBoard[first.row][first.col]];
    var found := Lookup(c.cars, car);
    if found.None? {
      return c, NullPointer;
    }
    var curr := found.value;
    SelectedCar(c, curr);
    if MovesSideways(curr) {
      next, notice := SidewaysMove(c, curr, first, second);
    } else {
      next, notice := VerticalMove(c, curr, first, second);
    }
  }


  // ---------------------------------------------------------------------
  // selection
  // ---------------------------------------------------------------------

  /** The fields of the model. */
  datatype View = View(gameState: GameState, jamConfig: JamConfiguration, cords: Option<Coordinates>)

  /** The board matches its car map, and a selected cell lies on the board. */
  ghost predicate ValidView(v: View) {
    Consistent(v.jamConfig) && (v.cords.Some? ==> InBounds(v.jamConfig.gameBoard, v.cords.value))
  }

  /**
   * selection: nothing happens unless the game is ongoing. A first click on
   * an empty cell selects nothing; on a car it selects the cell. A second
   * click drives the selected car and clears the selection, unless the car
   * lookup fails.
   */
  function Select(v: View, target: Coordinates): (r: (View, Notice))
    requires ValidView(v) && InBounds(v.jamConfig.gameBoard, target)
    ensures ValidView(r.0) && r.0.gameState == v.gameState
    ensures v.gameState != Ongoing ==> r == (v, Quiet)
    ensures v.gameState == Ongoing && v.cords.None? ==>
      r.0.jamConfig == v.jamConfig &&
      r.0.cords == (if At(v.jamConfig.gameBoard, target) == EMPTY then None else Some(target))
    ensures v.gameState == Ongoing && v.cords.Some? && r.1 != NullPointer ==> r.0.cords == None
    ensures r.1 == NullPointer ==> r.0 == v
  {
    var g := v.jamConfig.gameBoard;
    if v.gameState != Ongoing then (v, Quiet)
    else if v.cords.None? then
      if At(g, target) == EMPTY then (v, NoCarAt(target))
      else (v.(cords := Some(target)), SelectedAt(target))
    else
      var (n, notice) := SecondClick(v.jamConfig, v.cords.value, target);
      if notice == NullPointer then (v, NullPointer)
      else (v.(jamConfig := n, cords := None), notice)
  }

  // ---------------------------------------------------------------------
  // hint
  // ---------------------------------------------------------------------

  /** No sequence of moves from `c` reaches a solved board. */
  ghost predicate NoSolution(c: JamConfiguration)
    requires Consistent(c) && HasGoalCar(c)
  {
    SpaceClosed(c);
    Search.Unsolvable(c, NeighborsFn(), IsSolutionFn(), Space(c))
  }

  /** Some sequence of moves from `c` reaches a solved board. */
  ghost predicate Solvable(c: JamConfiguration) {
    exists p :: |p| > 0 && p[0] == c && Search.IsWalk(NeighborsFn(), p) &&
      IsSolutionFn().requires(p[|p| - 1]) && IsSolutionFn()(p[|p| - 1])
  }

  class JamModel {
    var gameState: GameState
    var jamConfig: JamConfiguration
    /** The cell selected by the first click, if any. */
    var cords: Option<Coordinates>

    ghost predicate Valid()
      reads this
    {
      ValidView(View(gameState, jamConfig, cords))
    }

    /** The model of a board file given by its size and car lines: the game starts ongoing with nothing selected. */
    constructor(numRows: nat, numCols: nat, lines: seq<Car>)
      requires WellFormedPuzzle(numRows, numCols, PutAll(lines))
      ensures Valid()
      ensures gameState == Ongoing && jamConfig == Initial(numRows, numCols, lines) && cords == None
    {
      var cars := PutAll(lines);
      forall k | 0 <= k < |cars| ensures CarOnBoard(cars[k], numRows, numCols) {
        assert WellFormedCar(cars[k], numRows, numCols);
      }
      var initial := FromFile(numRows, numCols, lines);
      jamConfig := initial;
      StampedConsistent(numRows, numCols, cars);
      gameState := Ongoing;
      cords := None;
    }

    method SetGameStateOngoing()
      modifies this
      ensures gameState == Ongoing && jamConfig == old(jamConfig) && cords == old(cords)
    {
      gameState := Ongoing;
    }

    /** selection: a click on the cell at row `xCord`, column `yCord`. */
    method Selection(xCord: int, yCord: int) returns (notice: Notice)
      requires Valid() && InBounds(jamConfig.gameBoard, Coordinates(xCord, yCord))
      modifies this
      ensures Valid()
      ensures (View(gameState, jamConfig, cords), notice) ==
        Select(old(View(gameState, jamConfig, cords)), Coordinates(xCord, yCord))
    {
      if gameState == Ongoing && cords.None? {
        var guessCords := Coordinates(xCord, yCord);
        if jamConfig.gameBoard[guessCords.row][guessCords.col] == EMPTY {
          notice := NoCarAt(guessCords);
        } else {
          cords := Some(guessCords);
          notice := SelectedAt(guessCords);
        }
      } else if gameState == Ongoing {
        var secondCords := Coordinates(xCord, yCord);
        var next;
        next, notice := SecondClickMove(jamConfig, cords.value, secondCords);
        if notice != NullPointer {
          jamConfig := next;
          cords := None;
        }
      } else {
        notice := Quiet;
      }
    }

    /** hint, on the fields of the game. */
    method Hint() returns (notice: Notice)
      requires Valid()
      modifies this
      ensures Valid() && Hinted(old(View(gameState, jamConfig, cords)), View(gameState, jamConfig, cords), notice)
    {
      var after;
      after, notice := HintView(View(gameState, jamConfig, cords));
      gameState, jamConfig, cords := after.gameState, after.jamConfig, after.cords;
    }
  }

  /**
   * What hint does to a game: without a goal car the car lookup fails; on a
   * solved board it says so; otherwise either no move sequence solves the
   * board and nothing changes, or the board becomes a neighbor from which
   * the puzzle can still be solved. The selection is kept.
   */
  ghost predicate Hinted(v: View, r: View, notice: Notice)
    requires ValidView(v)
  {
    r.cords == v.cords &&
    (!HasGoalCar(v.jamConfig) ==> notice == NullPointer && r == v) &&
    (HasGoalCar(v.jamConfig) && IsSolution(v.jamConfig) ==>
      notice == SolvedAlready && r == v.(gameState := AlreadySolved)) &&
    (HasGoalCar(v.jamConfig) && !IsSolution(v.jamConfig) ==>
      (notice == NoSolutionFound && r == v && NoSolution(v.jamConfig)) ||
      (notice == NextStep && r.gameState == GameState.Hint &&
       r.jamConfig in Neighbors(v.jamConfig) && Solvable(r.jamConfig)))
  }

  /**
   * hint: on a solved board say so; otherwise run the solver and play the
   * first move of the path it returns, or say there is no solution.
   */
  method HintView(v: View) returns (r: View, notice: Notice)
    requires ValidView(v)
    ensures ValidView(r) && Hinted(v, r, notice)
  {
    r := v;
    var config := v.jamConfig;
    if !HasGoalCar(config) {
      return v, NullPointer;
    }
    if IsSolution(config) {
      r := r.(gameState := AlreadySolved);
      notice := SolvedAlready;
    } else {
      var configurationCollection := SolvePuzzle(config);
      if configurationCollection == [] {
        notice := NoSolutionFound;
      } else {
        r := r.(jamConfig := configurationCollection[1], gameState := GameState.Hint);
        notice := NextStep;
      }
    }
  }

  /**
   * The solver run by hint on an unsolved board: a path whose second board is
   * one move away and can still be solved, or nothing when no move sequence
   * solves the board.
   */
  method SolvePuzzle(config: JamConfiguration) returns (path: seq<JamConfiguration>)
    requires Consistent(config) && HasGoalCar(config) && !IsSolution(config)
    ensures path == [] ==> NoSolution(config)
    ensures path != [] ==> |path| > 1 && path[0] == config && path[1] in Neighbors(config)
    ensures path != [] ==> Consistent(path[1]) && Solvable(path[1])
    ensures path != [] ==> |path[1].gameBoard| == |config.gameBoard| && NumCols(path[1].gameBoard) == NumCols(config.gameBoard)
  {
    var solver := new Search.Solver<JamConfiguration>();
    SpaceClosed(config);
    ghost var space := Space(config);
    path := solver.Solve(config, NeighborsFn(), IsSolutionFn(), space);
    if path == [] {
      HintNone(config, space);
    } else {
      HintStep(config, space, path);
    }
  }

  /** An empty search result means the board cannot be solved. */
  lemma HintNone(start: JamConfiguration, space: set<JamConfiguration>)
    requires Consistent(start) && HasGoalCar(start)
    requires space == Space(start) && start in space && Search.Closed(space, NeighborsFn(), IsSolutionFn())
    requires Search.SearchResult(start, NeighborsFn(), IsSolutionFn(), space, [])
    ensures NoSolution(start)
  {
  }

  /** A walk that ends in a solved board shows that its first board can be solved. */
  lemma WalkSolvable(p: seq<JamConfiguration>)
    requires |p| > 0 && Search.IsWalk(NeighborsFn(), p)
    requires IsSolutionFn().requires(p[|p| - 1]) && IsSolutionFn()(p[|p| - 1])
    ensures Solvable(p[0])
  {
  }

  /** The tail of a walk is a walk. */
  lemma WalkTail(p: seq<JamConfiguration>)
    requires |p| > 1 && Search.IsWalk(NeighborsFn(), p)
    ensures Search.IsWalk(NeighborsFn(), p[1..])
  {
    var rest := p[1..];
    forall i | 0 <= i < |rest| - 1 ensures NeighborsFn().requires(rest[i]) && rest[i + 1] in NeighborsFn()(rest[i]) {
      assert rest[i] == p[i + 1] && rest[i + 1] == p[i + 2];
    }
  }

  /** The second state of a path to a solution from an unsolved board is one move away and can still be solved. */
  lemma HintStep(start: JamConfiguration, space: set<JamConfiguration>, path: seq<JamConfiguration>)
    requires Consistent(start) && HasGoalCar(start) && !IsSolution(start)
    requires space == Space(start) && start in space && Search.Closed(space, NeighborsFn(), IsSolutionFn())
    requires path != [] && Search.SearchResult(start, NeighborsFn(), IsSolutionFn(), space, path)
    ensures |path| > 1 && path[1] in Neighbors(start)
    ensures Consistent(path[1]) && |path[1].gameBoard| == |start.gameBoard| && NumCols(path[1].gameBoard) == NumCols(start.gameBoard)
    ensures Solvable(path[1])
  {
    Search.WalkInside(space, NeighborsFn(), IsSolutionFn());
    assert path[0] == start;
    assert |path| > 1;
    assert NeighborsFn().requires(path[0]) && path[1] in NeighborsFn()(path[0]);
    NeighborSamePuzzle(start, start, path[1]);
    WalkTail(path);
    var rest := path[1..];
    assert rest[|rest| - 1] == path[|path| - 1];
    WalkSolvable(rest);
  }
}
