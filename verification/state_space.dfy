/**
 * The finite set of configurations the solver can reach from a puzzle: every
 * consistent board of the same size whose cars have the same names, in the
 * same order, and that still holds the goal car. Moves never leave it, which
 * is what bounds the breadth-first search.
 */
module StateSpace {
  import opened Coords
  import opened Cars
  import opened Board
  import opened Moves
  import Search

  /** All rows of `n` characters drawn from `alphabet`. */
  ghost function Rows(n: nat, alphabet: set<char>): set<seq<char>>
  {
    if n == 0 then {[]}
    else set r, a | r in Rows(n - 1, alphabet) && a in alphabet :: r + [a]
  }

  /** All grids of `m` rows drawn from `rows`. */
  ghost function Grids(m: nat, rows: set<seq<char>>): set<Grid>
  {
    if m == 0 then {[]}
    else set g, r | g in Grids(m - 1, rows) && r in rows :: g + [r]
  }

  lemma {:induction false} InRows(n: nat, alphabet: set<char>, r: seq<char>)
    requires |r| == n && forall j :: 0 <= j < n ==> r[j] in alphabet
    ensures r in Rows(n, alphabet)
  {
    if n > 0 {
      var init := r[..n - 1];
      InRows(n - 1, alphabet, init);
      assert r == init + [r[n - 1]];
    }
  }

  lemma {:induction false} InGrids(m: nat, rows: set<seq<char>>, g: Grid)
    requires |g| == m && forall i :: 0 <= i < m ==> g[i] in rows
    ensures g in Grids(m, rows)
  {
    if m > 0 {
      var init := g[..m - 1];
      InGrids(m - 1, rows, init);
      assert g == init + [g[m - 1]];
    }
  }

  /** A rectangular grid over an alphabet is one of the grids of its size over it. */
  lemma GridInGrids(g: Grid, alphabet: set<char>)
    requires Rectangular(g) && forall x :: InBounds(g, x) ==> At(g, x) in alphabet
    ensures g in Grids(|g|, Rows(NumCols(g), alphabet))
  {
    var rows := Rows(NumCols(g), alphabet);
    forall i | 0 <= i < |g| ensures g[i] in rows {
      forall j | 0 <= j < NumCols(g) ensures g[i][j] in alphabet {
        assert InBounds(g, Coordinates(i, j));
      }
      InRows(NumCols(g), alphabet, g[i]);
    }
    InGrids(|g|, rows, g);
  }

  /** The car map rebuilt from a grid: each named car from the cells of its letter. */
  function Rebuild(g: Grid, names: seq<string>): (cars: seq<Car>)
    requires Rectangular(g)
    ensures Names(cars) == names
  {
    seq(|names|, k requires 0 <= k < |names| =>
      var cells := if |names[k]| > 0 then AllCarCoordinates(g, names[k][0]) else [];
      if |cells| > 0 then CarFromCells(names[k], cells) else Car(names[k], 0, 0, 0, 0))
  }

  /** A consistent configuration is determined by its grid and the names of its cars. */
  lemma RebuildConsistent(c: JamConfiguration)
    requires Consistent(c)
    ensures c.cars == Rebuild(c.gameBoard, Names(c.cars))
  {
    var g := c.gameBoard;
    var r := Rebuild(g, Names(c.cars));
    forall k | 0 <= k < |c.cars| ensures r[k] == c.cars[k] {
      var car := c.cars[k];
      assert WellFormedCar(car, |g|, NumCols(g));
      assert AllCarCoordinates(g, car.carName[0]) == Cells(car);
      CellsEnds(car);
      CarFromItsCells(car);
    }
  }

  /** The characters a board of the puzzle may hold. */
  function Alphabet(c: JamConfiguration): set<char>
    requires forall k :: 0 <= k < |c.cars| ==> |c.cars[k].carName| > 0
  {
    {EMPTY} + CarChars(c.cars)
  }

  /** A configuration of the same puzzle as `start`. */
  ghost predicate SamePuzzle(start: JamConfiguration, c: JamConfiguration)
    requires Consistent(start)
  {
    Consistent(c) && HasGoalCar(c) && Names(c.cars) == Names(start.cars) &&
    |c.gameBoard| == |start.gameBoard| && NumCols(c.gameBoard) == NumCols(start.gameBoard)
  }

  /** Every configuration of the same puzzle as `start`. */
  ghost function Space(start: JamConfiguration): (space: set<JamConfiguration>)
    requires Consistent(start)
    ensures forall c :: c in space ==> SamePuzzle(start, c)
  {
    var names := Names(start.cars);
    var grids := Grids(|start.gameBoard|, Rows(NumCols(start.gameBoard), Alphabet(start)));
    set g | g in grids && Rectangular(g) && SamePuzzle(start, JamConfiguration(g, Rebuild(g, names))) ::
      JamConfiguration(g, Rebuild(g, names))
  }

  /** Cars with the same names are drawn with the same letters. */
  lemma SameNamesSameChars(a: seq<Car>, b: seq<Car>)
    requires Names(a) == Names(b)
    requires forall k :: 0 <= k < |a| ==> |a[k].carName| > 0
    ensures forall k :: 0 <= k < |b| ==> |b[k].carName| > 0
    ensures CarChars(a) == CarChars(b)
  {
    assert forall k :: 0 <= k < |a| ==> a[k].carName == Names(a)[k] == b[k].carName;
  }

  /** Every configuration of the same puzzle is in the space, the puzzle itself included. */
  lemma InSpace(start: JamConfiguration, c: JamConfiguration)
    requires Consistent(start) && SamePuzzle(start, c)
    ensures c in Space(start)
  {
    SameNamesSameChars(c.cars, start.cars);
    GridInGrids(c.gameBoard, Alphabet(start));
    RebuildConsistent(c);
  }

  /** A neighbor is a configuration of the same puzzle. */
  lemma NeighborSamePuzzle(start: JamConfiguration, c: JamConfiguration, n: JamConfiguration)
    requires Consistent(start) && SamePuzzle(start, c) && n in Neighbors(c)
    ensures SamePuzzle(start, n)
  {
    var k, d := NeighborIsSlide(c, n);
    SlideConsistent(c, k, d);
    assert Names(n.cars) == Names(c.cars);
  }

  /** getNeighbors as a function the solver can apply to any consistent configuration. */
  function NeighborsFn(): JamConfiguration --> seq<JamConfiguration>
  {
    c requires Consistent(c) => Neighbors(c)
  }

  /** isSolution as a function the solver can apply to any configuration of a puzzle with a goal car. */
  function IsSolutionFn(): JamConfiguration --> bool
  {
    c requires Consistent(c) && HasGoalCar(c) => IsSolution(c)
  }

  /** The space holds the puzzle and no move leaves it. */
  lemma SpaceClosed(start: JamConfiguration)
    requires Consistent(start) && HasGoalCar(start)
    ensures start in Space(start)
    ensures Search.Closed(Space(start), NeighborsFn(), IsSolutionFn())
  {
    InSpace(start, start);
    forall c, n | c in Space(start) && n in Neighbors(c) ensures n in Space(start) {
      NeighborSamePuzzle(start, c, n);
      InSpace(start, n);
    }
  }
}
