# JamGame in Dafny

A model of the core of JamGame, a rush-hour puzzle game and solver. The board is
a grid of characters. Every car is a straight run of cells stamped with the
first character of its name, and `.` marks an empty cell. The puzzle is solved
when the car `X` reaches the last column of its row.

The model covers these parts:

- **Coordinates** (`coordinates.dfy`, module `Coords`): the `(row, col)` record and its `toString`. The string constructor is modelled as `Integer.parseInt` on both parts.
- **Car** (`car.dfy`, module `Cars`): the immutable car value and its orientation. `movesSideways` holds exactly when the starting and ending rows agree. Each getter is a datatype field.
- **JamConfiguration** (`jam_configuration.dfy` and `neighbors.dfy`, modules `Board` and `Moves`):
  - The grid, and the car map as a key-ordered sequence of cars. Iteration follows the `TreeMap` order.
  - The board-stamping part of the file constructor.
  - The copy constructor that moves one car.
  - `getAllCarCoordinates`, `getNeighbors`, `isSolution`, `equals`, `hashCode` and `getCharAtCord`.
  - The loops that fill and scan the board are methods with loop invariants. Each is proved equal to a specification function, and the properties are proved about those functions.
- **Solver** (`search.dfy`, module `Search`): the generic breadth-first search. It keeps a FIFO queue and a predecessor map in which the first predecessor wins, then rebuilds the path. Successors and the goal test are passed in as functions.
- **The reachable states** (`state_space.dfy`, module `StateSpace`): every board of one puzzle. There are finitely many, and no move leaves them, which bounds the search.
- **JamModel** (`jam_model.dfy`, module `Game`): the game object. Its fields are `gameState`, `jamConfig` and `cords`. It has the two-click `selection` and `hint`. What the observers would be told is returned as a `Notice`, and `Message` gives its text.

Every board the game handles is *consistent*. For each car, the scan of its letter over the grid is exactly its straight run of cells. Letters are distinct, and every other cell is empty. The file constructor establishes this, and every move preserves it. Under it, per-state car data agrees with the board.

## Model

| member | source | states |
|---|---|---|
| Coords.IntToString | src/commonJam/solver/Coordinates.java:41 | an int prints as its decimal digits, with a leading '-' when negative; the text holds no ',' and no ')' |
| Coords.IntToStringInjective | src/commonJam/solver/Coordinates.java:41 | different ints print differently |
| Coords.ParseInt | src/commonJam/solver/Coordinates.java:18-20 | an unsigned, '+' or '-' digit string parses to its decimal value, negated after '-', when that value is a 32-bit int. Any other string is rejected |
| Coords.ParseIntToString | src/commonJam/solver/Coordinates.java:18-20 | parseInt reads back the printed form of every 32-bit int |
| Coords.ToString | src/commonJam/solver/Coordinates.java:40-42 | the text opens with '(' and ends with its only ')' |
| Coords.ToStringInjective | src/commonJam/solver/Coordinates.java:40-42 | different coordinates print differently, so the text names the cell |
| Coords.FromStrings | src/commonJam/solver/Coordinates.java:18-20 | the string constructor gives a value exactly when both strings parse |
| Coords.FromStringsOfInts | src/commonJam/solver/Coordinates.java:18-20 | the string constructor on printed ints gives the same value as the int constructor |
| Coords.SortedUnique | src/jam/JamConfiguration.java:235-245 | two row-major sorted cell lists with the same members are equal, so a row-major scan is determined by the cells it finds |
| Coords.Shift | src/jam/JamConfiguration.java:184-187 | every cell of the list is moved by the same row and column offsets, in order, keeping the length |
| Cars.Cells | src/jam/JamConfiguration.java:110-118 | a car's cells are row-major sorted and are exactly its row from starting to ending column when it moves sideways, otherwise its column from starting to ending row |
| Cars.CellsEnds | src/jam/JamConfiguration.java:110-118 | a straight car has cells; the first is its start and the last its end |
| Cars.Shifted | src/jam/JamConfiguration.java:152-159 | a moved car keeps its name, its orientation, its straightness and its lane |
| Cars.ShiftedCells | src/jam/JamConfiguration.java:184-221 | the cells of a car moved by d are its cells shifted by d along its axis |
| Cars.ShiftedBack | src/jam/JamConfiguration.java:152-159 | moving a car by d and then by -d gives the car back |
| Board.GridScanFacts | src/jam/JamConfiguration.java:237-243 | the nested scan over the first r rows is row-major sorted and finds exactly the cells of those rows that hold the character |
| Board.AllCarCoordinates | src/jam/JamConfiguration.java:235-245 | the scan result is row-major sorted and holds exactly the in-bounds cells that hold the character |
| Board.SameScan | src/jam/JamConfiguration.java:235-245 | the scan depends only on which cells hold the character |
| Board.GetAllCarCoordinates | src/jam/JamConfiguration.java:235-245 | the nested loops return the scan of the car's first character |
| Board.Names | src/jam/JamConfiguration.java:103 | the key set lists each car's name in map order |
| Board.Lookup | src/jam/JamConfiguration.java:104 | `get` finds a car exactly when the name is a key, and the car found has that name |
| Board.LookupAt | src/jam/JamConfiguration.java:104 | with distinct names, `get` of an entry's name returns that entry |
| Board.Replace | src/jam/JamConfiguration.java:158-159 | `replace` keeps the keys and their order, puts the new car at its name and keeps every other entry |
| Board.LookupReplaceSame | src/jam/JamConfiguration.java:158-159 | after `replace`, `get` of the name returns the new car if the name was a key, else nothing |
| Board.LookupReplaceOther | src/jam/JamConfiguration.java:158-159 | `replace` does not change `get` of any other name |
| Board.ReplaceAt | src/jam/JamConfiguration.java:158-159 | with distinct names, `replace` overwrites exactly the entry holding the name |
| Board.StrLessTotal | src/jam/JamConfiguration.java:80 | the key order is a strict total order on names |
| Board.StrLessTrans | src/jam/JamConfiguration.java:80 | the key order is transitive |
| Board.KeyOrderedDistinct | src/jam/JamConfiguration.java:80 | a key-ordered map has distinct names |
| Board.Put | src/jam/JamConfiguration.java:92 | `put` holds the new car and otherwise only old entries |
| Board.PutKeyOrdered | src/jam/JamConfiguration.java:92 | `put` keeps the map in key order |
| Board.LookupPut | src/jam/JamConfiguration.java:92 | after `put`, `get` of the car's name returns it and `get` of any other name is unchanged |
| Board.PutAll | src/jam/JamConfiguration.java:83-93 | putting every car line gives a key-ordered map whose entries all come from the lines |
| Board.LookupPutAll | src/jam/JamConfiguration.java:83-93 | the last line with a name decides that name's car |
| Board.EmptyBoard | src/jam/JamConfiguration.java:95-100 | the cleared board has the given number of rows and columns |
| Board.StampCar | src/jam/JamConfiguration.java:110-118 | stamping a car keeps the board's shape |
| Board.StampCarAt | src/jam/JamConfiguration.java:110-118 | after stamping, a cell holds the car's letter if it is one of the car's cells and is unchanged otherwise |
| Board.StampAll | src/jam/JamConfiguration.java:102-119 | stamping every car keeps the board's shape |
| Board.StampAllCovered | src/jam/JamConfiguration.java:102-119 | a cell covered by exactly one car holds that car's letter |
| Board.StampAllUncovered | src/jam/JamConfiguration.java:102-119 | a cell no car covers keeps its character |
| Board.PlotCar | src/jam/JamConfiguration.java:103-119 | the plotting loop writes the car's letter into exactly its cells and leaves every other cell as it was |
| Board.StampBoard | src/jam/JamConfiguration.java:95-119 | the clearing and plotting loops build the board with every car stamped on an empty board |
| Board.FromFile | src/jam/JamConfiguration.java:83-119 | the constructor builds the initial configuration; its map is key-ordered, the last line with a name decides that car, and every line's name is a key |
| Board.StampedCells | src/jam/JamConfiguration.java:95-119 | on a well-formed puzzle, every cell of a car holds its letter and every other cell is empty |
| Board.StampedCarCells | src/jam/JamConfiguration.java:95-119 | on a well-formed puzzle, the scan of a car's letter is exactly its cells |
| Board.StampedConsistent | src/jam/JamConfiguration.java:95-119 | the board built from a well-formed puzzle is consistent |
| Board.CarFromItsCells | src/jam/JamConfiguration.java:152-159 | the car built from the first and last of a straight car's cells is that car |
| Board.MovedBoard | src/jam/JamConfiguration.java:131-146 | the copied board has the same shape |
| Board.MovedCarCells | src/jam/JamConfiguration.java:139-164 | after the copy constructor, the moved car's letter occupies exactly the updated cells |
| Board.MovedOtherCells | src/jam/JamConfiguration.java:139-164 | after the copy constructor, every other letter occupies the same cells as before |
| Board.CopyWithMove | src/jam/JamConfiguration.java:130-165 | the copy, clear and plot loops and the map replace give the moved configuration: the car's old cells cleared, the updated cells stamped and the entry replaced by the car from first to last updated cell |
| Board.GoalCarCells | src/jam/JamConfiguration.java:254-257 | on a consistent board the scan of 'X' is X's cells, ending at X's end |
| Board.IsSolutionIff | src/jam/JamConfiguration.java:254-260 | the board is solved exactly when X lies along a row and ends in the last column |
| Board.EqualsIsSameConfiguration | src/jam/JamConfiguration.java:268-275 | for consistent boards of the same cars, equal grids hold exactly when the configurations are equal |
| Board.CharsHash | src/jam/JamConfiguration.java:314-317 | the hash of a row is a 32-bit pattern |
| Board.DeepHash | src/jam/JamConfiguration.java:314-317 | the hash of the grid is a 32-bit pattern |
| Board.HashCode | src/jam/JamConfiguration.java:314-317 | the hash code is a 32-bit int |
| Board.HashCodeRespectsEquals | src/jam/JamConfiguration.java:268-275 | configurations equal by `equals` have equal hash codes |
| Board.GetCharAtCord | src/jam/JamConfiguration.java:322-324 | on a consistent board, a non-empty cell belongs to a car with that letter, and an empty cell belongs to no car |
| Moves.CellOwner | src/jam/JamConfiguration.java:235-245 | on a consistent board, a cell holds a car's letter exactly when it is one of that car's cells |
| Moves.Slide | src/jam/JamConfiguration.java:130-165 | sliding a car replaces its entry by the moved car and keeps every other entry |
| Moves.SlideAt | src/jam/JamConfiguration.java:139-164 | after a slide, a cell holds the car's letter if it is a new cell, is empty if it was an old cell only, and is unchanged otherwise |
| Moves.SlideKeepsOther | src/jam/JamConfiguration.java:139-164 | a legal slide leaves the cells of every other car unchanged |
| Moves.SlideMovesCar | src/jam/JamConfiguration.java:139-164 | after a legal slide, the car's letter occupies exactly the moved car's cells |
| Moves.SlideConsistent | src/jam/JamConfiguration.java:130-165 | a legal slide keeps the board consistent |
| Moves.SlideBack | src/jam/JamConfiguration.java:130-165 | a legal slide can be undone by the opposite slide, which gives the board back |
| Moves.CarCordsCells | src/jam/JamConfiguration.java:178 | on a consistent board, the coordinates found for a car are its cells, from its start to its end |
| Moves.GainedCell | src/jam/JamConfiguration.java:181-222 | a one-cell slide adds exactly one cell, the one just past the car in that direction |
| Moves.MoveTestGained | src/jam/JamConfiguration.java:180-224 | the source's bound-and-empty test holds exactly when the cell a one-cell slide gains is on the board and empty |
| Moves.CanStepIff | src/jam/JamConfiguration.java:180-224 | the source's test for a one-cell slide holds exactly when the slide is legal: every new cell is on the board and empty or the car's own |
| Moves.StepIsSlide | src/jam/JamConfiguration.java:184-221 | the copy built from the car's cells shifted by one is the slide of that car |
| Moves.CarNeighborsAreSlides | src/jam/JamConfiguration.java:180-224 | the neighbours produced for one car are its legal slides, right or down first, then left or up |
| Moves.NeighborsAreSlides | src/jam/JamConfiguration.java:173-227 | the neighbour list is the legal one-cell slides of each car, in key order |
| Moves.SlideIsNeighbor | src/jam/JamConfiguration.java:173-227 | every legal one-cell slide of a car is a neighbour |
| Moves.NeighborIsSlide | src/jam/JamConfiguration.java:173-227 | every neighbour is a legal one-cell slide of one car |
| Moves.NeighborsConsistent | src/jam/JamConfiguration.java:173-227 | every neighbour of a consistent board is consistent |
| Moves.NeighborsSymmetric | src/jam/JamConfiguration.java:173-227 | a board is a neighbour of each of its neighbours |
| Moves.SlideBackListed | src/jam/JamConfiguration.java:173-227 | after a legal slide, the board before it is among the neighbours |
| Moves.ShiftEach | src/jam/JamConfiguration.java:185-187 | the forEach builds a list of the same length with every cell moved by the given rows and columns |
| Moves.StepTo | src/jam/JamConfiguration.java:184-188 | building the shifted list and calling the copy constructor gives the configuration moved to the shifted cells |
| Moves.StepOf | src/jam/JamConfiguration.java:184-221 | one branch of getNeighbors builds the one-cell slide |
| Moves.SidewaysNeighbors | src/jam/JamConfiguration.java:180-201 | the sideways branch produces the car's right slide, then its left slide, each only when legal |
| Moves.VerticalNeighbors | src/jam/JamConfiguration.java:203-224 | the vertical branch produces the car's down slide, then its up slide, each only when legal |
| Moves.NeighborsOfCar | src/jam/JamConfiguration.java:177-224 | the loop body for one car produces that car's legal slides |
| Moves.GetNeighbors | src/jam/JamConfiguration.java:173-227 | the loop over the map returns the neighbour list |
| Search.WalkInside | src/commonJam/solver/Solver.java:56-69 | a walk that starts in a set closed under moves stays in it |
| Search.ExhaustedUnsolvable | src/commonJam/solver/Solver.java:56-70 | if every state seen is unsolved and has all its neighbours seen, no walk from the start ends in a solution |
| Search.RecordStep | src/commonJam/solver/Solver.java:62-67 | one neighbour is recorded and queued exactly when it is not yet a key |
| Search.RecordFacts | src/commonJam/solver/Solver.java:62-67 | recording neighbours never overwrites a predecessor, keys every neighbour, points new keys at the current state, and appends exactly the new keys, each once, to the back of the queue |
| Search.LinkedIsWalk | src/commonJam/solver/Solver.java:84-93 | a path along the predecessor links is a walk of neighbours |
| Search.ConstructPath | src/commonJam/solver/Solver.java:82-94 | the path is empty exactly when the solution is not a key; otherwise it runs from the start to the solution, each element the predecessor of the next |
| Search.Solver.constructor | src/commonJam/solver/Solver.java:25-31 | a new solver has no predecessors |
| Search.Found | src/commonJam/solver/Solver.java:59-60 | returning the path to the first solution dequeued meets the search's contract |
| Search.Exhausted | src/commonJam/solver/Solver.java:70 | returning the empty list once the queue is empty meets the search's contract |
| Search.Expand | src/commonJam/solver/Solver.java:56-68 | one iteration keeps the queue and predecessor invariants and makes progress |
| Search.Solver.GetShortestPath | src/commonJam/solver/Solver.java:49-71 | the start stays its own predecessor. The result is a walk from the start to a solution, or empty only when no walk from the start reaches a solution. It is [start] when the start is solved |
| Search.Solver.Solve | src/commonJam/solver/Solver.java:39-41 | solve returns the search's result |
| StateSpace.Rebuild | src/jam/JamConfiguration.java:268-275 | the cars rebuilt from a grid carry the given names |
| StateSpace.RebuildConsistent | src/jam/JamConfiguration.java:268-275 | a consistent configuration is determined by its grid and car names |
| StateSpace.Space | src/commonJam/solver/Solver.java:56-69 | every state in the space is a consistent board of the same puzzle |
| StateSpace.InSpace | src/commonJam/solver/Solver.java:56-69 | every consistent board of the same puzzle is in the space |
| StateSpace.NeighborSamePuzzle | src/jam/JamConfiguration.java:173-227 | a neighbour is a board of the same puzzle |
| StateSpace.SpaceClosed | src/commonJam/solver/Solver.java:56-69 | the puzzle is in its space, and no move leaves the space |
| Game.MessageInjective | src/jam/JamModel.java:168-231 | different notices produce different message texts |
| Game.SecondClick | src/jam/JamModel.java:177-288 | the second click fails on a missing car and otherwise changes the board only when it reports a move; the board stays consistent and keeps its size |
| Game.DriveBy | src/jam/JamModel.java:212-229 | shifting the car's listed cells along its axis by the distance to the target gives the cells of the shifted car, and these are all on the board |
| Game.RowClearIsDrive | src/jam/JamModel.java:183-199 | the two row scans pass exactly when every slide from 0 to the distance to the target column is legal |
| Game.ColumnClearIsDrive | src/jam/JamModel.java:234-250 | the two column scans pass exactly when every slide from 0 to the distance to the target row is legal |
| Game.AxisClickIsDrive | src/jam/JamModel.java:182-285 | the car moves exactly when the target is on its lane and the way is clear. The move is the slide by the distance to the target, and the board stays consistent. Otherwise the board is unchanged and the click is rejected |
| Game.SecondClickDrives | src/jam/JamModel.java:177-288 | the car looked up from the first cell covers that cell, and the second click moves it exactly as described above |
| Game.ScanRow | src/jam/JamModel.java:183-199 | the two early-exit loops along the car's row report whether every cell between the start column and the target is empty or the car's own |
| Game.ScanColumn | src/jam/JamModel.java:234-250 | the two early-exit loops along the car's column report whether every cell between the start row and the target is empty or the car's own |
| Game.DriveSideways | src/jam/JamModel.java:207-230 | the left or right shift builds the board with the car moved by the distance to the target, or leaves it unchanged when the target is inside the car |
| Game.DriveVertical | src/jam/JamModel.java:261-284 | the up or down shift builds the board with the car moved by the distance to the target, or leaves it unchanged when the target is inside the car |
| Game.SidewaysMove | src/jam/JamModel.java:182-231 | the sideways branch: the scans, the row check and the move give the specified board and notice |
| Game.VerticalMove | src/jam/JamModel.java:233-285 | the vertical branch: the scans, the column check and the move give the specified board and notice |
| Game.SecondClickMove | src/jam/JamModel.java:177-288 | the second click gives the specified board and notice |
| Game.Select | src/jam/JamModel.java:168-289 | a click does nothing unless the game is ongoing. A first click on an empty cell keeps nothing selected; on a car it selects the cell. A completed second click clears the selection, and a failed lookup changes nothing. The game state never changes, and the board stays consistent |
| Game.JamModel.constructor | src/jam/JamModel.java:75-79 | the game starts ongoing on the initial board of a well-formed puzzle, with nothing selected |
| Game.JamModel.SetGameStateOngoing | src/jam/JamModel.java:131-133 | only the game state changes, to ongoing |
| Game.JamModel.Selection | src/jam/JamModel.java:168-289 | the fields and the notice after a click are those given by the selection function |
| Game.SolvePuzzle | src/jam/JamModel.java:94-95 | the solver's path is empty only when the board cannot be solved. Otherwise its second board is a neighbour, consistent, of the same size, and still solvable |
| Game.HintNone | src/jam/JamModel.java:96-97 | an empty solver result means no move sequence solves the board |
| Game.HintStep | src/jam/JamModel.java:98-101 | on an unsolved board the solver path has a second element, a neighbour from which a solution is still reachable |
| Game.HintView | src/jam/JamModel.java:89-104 | hint fails when there is no car X and says a solved board is solved and marks it. Otherwise it reports no solution and changes nothing, or plays one move that keeps the puzzle solvable. The selection is kept |
| Game.JamModel.Hint | src/jam/JamModel.java:89-104 | the fields and notice after a hint are those described for the hint function |

## Left out

- File reading and `Integer.parseInt` in the file constructor (src/jam/JamConfiguration.java:70-93) are left out. The constructors take the board size and the list of car lines instead.
- `JamModel.load`, `reset` and `quit` are left out: they are file I/O and `System.exit`.
- The observers, `addObserver` and `notifyObservers` are left out. Each operation returns a `Notice`, and `Message` gives the text that would be sent.
- The GUI, the command-line `main`, and the board's `toString` are display only and are left out.
- The `Solver` counters `configcount` and `currConfig` are diagnostics and are left out.
- The static `numRows`/`numCols` of the board are fixed per puzzle. Here they are the dimensions of the grid.
- The car map shared between configurations is not modelled. The copy constructor shares one `TreeMap` and mutates it, so after a search it holds the cars of whatever states were built last. Each state here has its own car data, which matches its board.
  - `getNeighbors` reads only a car's name, orientation and lane, which no move changes. So the model gives it the same results.
  - `isSolution` also reads the goal car's `getStartingRow()` (src/jam/JamConfiguration.java:258). For a horizontal X that is its lane, which never changes, so the results agree. For a vertical X it is a position along the car's axis, and the shared map can hold the value of a different state.
    - Example: a 3×2 board with A vertical in column 0, rows 0–1, and X vertical in column 1, rows 0–1. The source reports the board after A moves down as solved and returns that two-state path.
    - The model reads each state's own X, so a vertical X is never solved (Board.IsSolutionIff), and that puzzle has no solution here.
  - `selection` also reads the starting row and column along the car's axis. After a `hint` these can be stale in the source. The model reads the car that matches the board.
- The exact value of `Arrays.deepHashCode` is modelled with Java's formula, but only its dependence on the grid is proved.
- The `HashMap` keyed by configuration is modelled as a map keyed by configuration value. `equals` is proved to coincide with value equality on consistent boards of one puzzle.
- The reference comparison `currentConfig != puzzleToSolve` in `constructPath` is modelled as value inequality. The start's own entry is the only one that points to itself.
- The Java `List` results are modelled as sequences. `LinkedList` and `ArrayList` identity and in-place appends are not modelled.
- The search is bounded by a finite ghost set of states closed under moves, which the solver takes as a parameter. For this game it is every consistent board of the same puzzle.
- A `NullPointerException` is modelled as the `NullPointer` notice with nothing changed. It arises when the selected cell's letter has no car, or when `hint` finds no car `X`.
- Integer overflow in coordinates is not modelled. Board indices are small naturals, and cells are unbounded integers.
- Search.Solver.GetShortestPath: does not prove that the returned path is a shortest one. It proves that the path is a walk of neighbours from the start to a solution, linked by predecessors, and empty only when no solution is reachable.
- Game.JamModel.Selection: requires the clicked cell to be on the board, because the source does no bounds checking and would throw. It also requires the board to be consistent, so that the car data matches the board.
- Game.JamModel.constructor: requires a well-formed puzzle, with straight cars on the board, distinct letters and no overlaps. A malformed file makes the source throw or draw overlapping cars. A car whose start lies after its end is not drawn at all, because the plotting loops (src/jam/JamConfiguration.java:110-117) do not run.
- Coords.ParseInt: accepts only the ASCII digits '0'..'9'. `Integer.parseInt` reads digits with `Character.digit`, which also accepts the other Unicode decimal digits (for example "١٢" is 12). Coords.FromStrings inherits this.
- Board.StrLess: compares Unicode scalar values, while `String.compareTo` compares UTF-16 code units. The two orders differ only for names with characters outside the Basic Multilingual Plane, which sort below U+E000..U+FFFF in Java. For the same reason, `charAt(0)` (a name's first `char`) and `Arrays.hashCode` (Board.CharsHash) match the source only for names and boards drawn from that plane.
- Board.FromFile: requires every car to lie on the board, because the source writes outside the array otherwise.
