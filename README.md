# Rush Hour engine — a verified model

This project models the puzzle engine of `rushout.js`, a Rush Hour solver. Rush Hour is played on a 6 x 6 grid of cars, where each car slides along its own row or column. The goal is to move the main car `X` to the right-hand edge. The engine has three parts:

- **`Car`** is a piece with a symbol, a position, an orientation and a length. It can test whether it covers a cell.
- **`Board`** owns the ordered list of cars.
  - It can add cars and load them from a 36-character grid.
  - It can render itself as a string or as rows, and compute its visited-state key.
  - It can clone itself and look a car up by cell or by symbol.
  - It generates every single-car slide as a fresh clone.
- **`Solver`** runs a breadth-first search over boards.
  - A `states` map, keyed by the board key, records each board's parent, car and move.
  - When it dequeues a solved board, it rebuilds the moves list from the parent links.

Modules, in dependency order:

- `Options`: the option type.
- `Cars`: the car as a value.
- `Configs`: a configuration, meaning the cars of a board as a value, plus:
  - its key;
  - its main car;
  - the solved test;
  - the well-formedness predicates.
- `Rendering`: what `toString` computes.
- `Moves`: what `findPossibleMoves` computes, and why every move is legal.
- `Loading`: what `loadBoard` computes, and the load/render round trip.
- `Boards`: the `Board` class, with the source's loops.
- `Search`: breadth-first search over configurations, as values. It covers:
  - the reachability and shortest-path facts;
  - the queue order;
  - the termination measure.
- `Solving`: the `Solver` class and the search state it keeps.

A JS `Car` object is referenced in the model by its index in `Board.cars`, and a mutation of a car's field becomes an update of that index. `mainCar` is the index of the last main car added. A state key is the sequence of `(symbol, x, y)` entries, one per car in board order. On the 6 x 6 board with one-character symbols, the source's string `id + x + "." + y` carries exactly this information. `Board.AsKey` is proven to compute the key, and the solver uses the key function `Configs.KeyOf` directly.

The search loop of `solve` has no termination argument in the source. The model shows termination as follows:

- Every reachable configuration keeps the start's symbols, axes and lengths.
- Its coordinates stay within a bound computed from the start (`Search.CoordBound`).
- So its key lies in a finite set that covers every such configuration.
- The loop decreases the number of keys of that set not yet in `states`, and then the queue length.

## Model

| member | source | states |
|---|---|---|
| Cars.IntersectsIsFootprint | rushout.js:49-61 | `intersects(px, py)` holds exactly when the cell is one of the car's `size` cells, counted from `(x, y)` along its axis |
| Cars.IntersectsIsBox | rushout.js:41-61 | `intersects` is membership in the box of side `width` by `height` anchored at `(x, y)` |
| Cars.CellCovered | rushout.js:49-61 | the k-th cell along a car's axis is covered by the car exactly when `0 <= k < size` |
| Configs.KeyDeterminesConfig | rushout.js:146-152 | two configurations with the same symbols, axes and lengths and the same key are equal, so the key identifies a state |
| Configs.LastMain | rushout.js:73-80 | the `mainCar` index, when present, is that of a car whose symbol is `X` |
| Configs.LastMainIsLast | rushout.js:73-80 | `mainCar` is the last main car added: no main car comes after it, and when it is absent there is no main car at all |
| Configs.LastMainSameIds | rushout.js:73-80 | the main car depends only on the symbols, in order, so moving cars never changes which car is main |
| Configs.FirstWithId | rushout.js:216-223 | the first index whose car has the symbol, with no earlier car having it; None exactly when no car has it |
| Configs.FirstWithIdAt | rushout.js:216-223 | conversely, the first index holding the symbol is the one found |
| Configs.SolvedMeansAtExit | rushout.js:225-227 | on a board whose cars are in the grid, a horizontal main car is solved exactly when it covers the rightmost cell of its row |
| Rendering.GlyphOfCover | rushout.js:113-121 | with no overlapping cars, a covered cell shows the symbol of the one car covering it, and an empty cell shows `.` |
| Rendering.GlyphEmpty | rushout.js:109-112 | a cell no car covers shows `.` |
| Rendering.FlatInjective | rushout.js:116-118 | helper: distinct cells of a row-major grid of width w get distinct indices |
| Rendering.FlatInRange | rushout.js:110-118 | helper: the row-major index of every grid cell lies inside the `width * height` buffer |
| Rendering.PaintCarAt | rushout.js:114-120 | after writing a car's first k cells, a position holds the car's symbol exactly when one of those cells maps to it, and is unchanged otherwise |
| Rendering.CellIndexIsCell | rushout.js:114-119 | for a car in the grid, the indices written for it are exactly the indices of the cells it covers |
| Rendering.PaintAllAt | rushout.js:113-121 | after painting every car in order, a cell holds its glyph when covered and its old symbol otherwise |
| Rendering.RenderGlyph | rushout.js:108-123 | the rendering has `width * height` symbols, and cell (px, py) at index `py * width + px` holds the symbol of the last car covering it, or `.` |
| Moves.SlidesAppend | rushout.js:170-201 | the moves for a concatenation of probed positions are the moves for each part, in order |
| Moves.BackPositionsSpec | rushout.js:170-183 | the backward probe yields `k, k - 1, …`, and these are exactly the positions p >= 0 with every cell from p to k free |
| Moves.ForwardPositionsSpec | rushout.js:185-201 | the forward probe yields `k - (size - 1)`, then one more per step, and these are exactly the positions whose far end is reached, inside the board, through free cells |
| Moves.BackPositionsRun | rushout.js:170-183 | a backward probe that meets free cells down to k + 1 and stops at k (the edge or an occupied cell) yields one position per free cell, in order |
| Moves.ForwardPositionsRun | rushout.js:185-201 | a forward probe that meets free cells up to k - 1 and stops at k (the edge or an occupied cell) yields one position per free cell, in order |
| Moves.CarPositionsSpec | rushout.js:166-201 | one car's moves: `start - 1, start - 2, …` (one per consecutive free cell), then `start + 1, start + 2, …`; a position is produced exactly when the slide to it is legal |
| Moves.SlideToUnique | rushout.js:174-178 | with unique symbols, the clone's car found by `getCarById` is the probed car, moved by the new position minus `start` |
| Moves.CandidateOrigin | rushout.js:166-201 | every generated move comes from some car and one of its probed positions |
| Moves.CandidateFromOrigin | rushout.js:166-201 | every probed position of every car yields a move in the list |
| Moves.MoveChangesOneCar | rushout.js:163-205 | each move changes exactly one car, only along its axis, by a nonzero `move` equal to the new coordinate minus the old; the slide is legal; all other cars and the order are unchanged, and so the key changes |
| Moves.MovesComplete | rushout.js:163-205 | every legal slide of every car appears among the generated moves |
| Moves.MovePreservesShape | rushout.js:163-205 | every move keeps each car's symbol, axis and length, and the order of the cars |
| Moves.SlideKeepsLegal | rushout.js:170-201 | a legal slide keeps every car on the board and no two cars overlapping |
| Moves.MovePreservesLegality | rushout.js:170-214 | if the cars are on the board, do not overlap and have unique symbols, every generated board has the same three properties |
| Loading.LoadCellFacts | rushout.js:87-98 | one scanned cell keeps the symbols unique and not `.`, and adds one cell to the scanned symbol's car, creating that car when new |
| Loading.LoadFromIds | rushout.js:82-102 | loading any text gives unique symbols, none of them `.`, with one car for every symbol scanned |
| Loading.RowColumn | rushout.js:85-87 | helper: cell `lineIdx * 6 + cellIdx` lies in column `cellIdx` of row `lineIdx` |
| Loading.LoadFromGrows | rushout.js:89-94 | a repeated symbol grows its car by one cell, turning it vertical when seen in another row |
| Loading.LoadFromAdds | rushout.js:95-97 | a new symbol appends a one-cell horizontal car at its cell |
| Loading.LoadFromSkips | rushout.js:88 | an empty cell changes nothing |
| Loading.LoadFromSizes | rushout.js:82-102 | every loaded car has at least one cell, and as many cells as its symbol has occurrences in the text |
| Loading.CarStep | rushout.js:85-99 | one scan step seen from a car of a well-formed list: it grows by one exactly when it covers the cell; its first covered cell is its origin; a later cell in another row means it is vertical |
| Loading.LoadStepEmpty | rushout.js:88 | on the rendering of a well-formed list, an empty cell leaves the cars built so far unchanged |
| Loading.StartIndex | rushout.js:95-97 | helper: at a car's first cell, exactly the cars before it have begun, and that car begins |
| Loading.LoadStepStart | rushout.js:95-97 | the first cell of a car of a well-formed list appends that car as a new one-cell horizontal car |
| Loading.GrowFound | rushout.js:89-91 | helper: before a later cell of a car, the cars built so far hold it, and the first one with its symbol is it |
| Loading.GrowKeepsLength | rushout.js:89-94 | helper: a later cell of a car begins no new car |
| Loading.LoadStepGrow | rushout.js:89-94 | a later cell of a car of a well-formed list grows the car built so far, found by its symbol |
| Loading.RenderedCell | rushout.js:108-123 | the 36-symbol rendering of a well-formed list shows `.` on empty cells and the covering car's symbol elsewhere |
| Loading.LoadStep | rushout.js:87-99 | one scan step over the rendering turns the cars built after n cells into those built after n + 1 |
| Loading.LoadPrefix | rushout.js:85-101 | loading the first n cells of the rendering of a well-formed list builds its cars up to cell n |
| Loading.LoadRender | rushout.js:82-123 | loading the rendering of a well-formed car list gives back exactly that list |
| Loading.LoadFromPrefix | rushout.js:85-87 | the scan of the first n cells reads nothing beyond them, so a longer text loads as its first 36 characters |
| Loading.RenderLoad | rushout.js:82-123 | for a well-formed grid, that is the 36-cell rendering of a canonical car list (on the board, no overlap, unique symbols other than '.', in scan order), loading then rendering returns the grid |
| Boards.ProducedConcat | rushout.js:179 | move records matching two lists of generated moves, concatenated, match the concatenated list |
| Boards.Board.constructor | rushout.js:66-71 | a new board has the given size, no cars and no main car |
| Boards.Board.AddCar | rushout.js:73-80 | appends the new car and returns it; it becomes `mainCar` exactly when its symbol is `X` |
| Boards.Board.LoadBoard | rushout.js:82-102 | appends exactly the cars that the scan reads from the first 36 characters of the text (`Loading.Load`), keeping `mainCar` the last main car |
| Boards.Board.GrowCar | rushout.js:90-94 | grows car i by one cell, turning it vertical when seen in another row; nothing else changes |
| Boards.Board.LoadCellAt | rushout.js:87-98 | one cell of the scan: the board and the symbol-to-car dictionary advance from the state after n cells to the state after n + 1 |
| Boards.Board.IsSolved | rushout.js:225-227 | the effective solved test (the later accessor): the main car's x equals the width minus the main car's width |
| Boards.Board.ToString | rushout.js:108-123 | returns the rendering, whose meaning cell by cell is `Rendering.RenderGlyph` |
| Boards.Board.PaintInto | rushout.js:114-120 | writes the car's symbol at the index of each of its cells, and changes nothing else |
| Boards.Board.ToStringLines | rushout.js:125-144 | `height` rows of `width` symbols; row j, column i holds the symbol of the last car covering cell (i, j), or `.` |
| Boards.Board.AsKey | rushout.js:146-152 | returns the key: each car's symbol and position, in board order |
| Boards.Board.Clone | rushout.js:154-160 | a fresh board of the same size, with equal cars in the same order (hence the same key) and the same main car, re-established through `addCar` |
| Boards.Board.GetCarAt | rushout.js:207-214 | the first car in order that covers the cell; None exactly when no car covers it |
| Boards.Board.GetCarById | rushout.js:216-223 | the first car with the symbol, or None (as `Configs.FirstWithId` states) |
| Boards.Board.FreeAt | rushout.js:171-173 | the probe's test is true exactly when no car covers the cell at that axis position |
| Boards.Board.SlideClone | rushout.js:174-179 | a fresh clone, with the car found by symbol moved to the probed position, and the signed move |
| Boards.Board.AppendSlide | rushout.js:179 | pushing one more move keeps the list matched, entry by entry, with the probed positions |
| Boards.Board.ProbeBackward | rushout.js:170-183 | one move per position of the backward probe, in order |
| Boards.Board.ProbeForward | rushout.js:185-201 | one move per position of the forward probe, in order |
| Boards.Board.FindPossibleMoves | rushout.js:163-205 | returns exactly the generated moves `Moves.Candidates`, in order, each on a valid board of the same size, with the moved car and the signed move; their meaning is `Moves.MoveChangesOneCar`, `Moves.MovesComplete` and `Moves.MovePreservesLegality` |
| Search.CoordBound | rushout.js:242-263 | a bound that covers the board and the start's coordinates |
| Search.PositionBounded | rushout.js:170-201 | a generated position stays within a bound that covers the board and the car |
| Search.MoveStaysBounded | rushout.js:163-205 | every generated move keeps all coordinates within a bound that covers the board |
| Search.KeyInUniverse | rushout.js:242-263 | the key of a bounded configuration lies in the finite set of keys of that shape and bound |
| Search.DiffShrinks | rushout.js:258-261 | helper: adding keys of a finite set leaves fewer of them outside |
| Search.ConfsAdd | rushout.js:258-261 | recording a bounded configuration of the start's shape under its own key keeps the record consistent |
| Search.FiniteCover | rushout.js:242-263 | one finite set of keys covers every bounded configuration of the start's shape |
| Search.Shrinks | rushout.js:242-263 | recording a new key leaves fewer keys of the cover unrecorded: the search loop's termination measure |
| Search.SameShapeMain | rushout.js:225-227 | configurations with the same symbols, axes and lengths have the same main car |
| Search.VisitedAlongPath | rushout.js:242-263 | along any path from the start, short enough to stay below the queue's distances, every configuration is visited, no further than its place on the path |
| Search.NoReachableSolution | rushout.js:242-266 | when every visited key was expanded and none was solved, no path from the start ends solved (why `null` is right) |
| Search.NoShorterSolution | rushout.js:242-263 | when every queued key lies at least d moves out, every path from the start to a solved configuration takes at least d moves |
| Search.ExhaustedRecordsAll | rushout.js:242-266 | when every visited key is expanded, the key of every board reachable from the start is visited |
| Search.ExploredStep | rushout.js:257-262 | expanding an unsolved key, all of whose moves lead to visited keys at most one move further, keeps the search explored |
| Search.LayeredHead | rushout.js:245 | from the head of the queue, every visited key is at most one move further, and an unexpanded one no nearer |
| Search.GrownAdd | rushout.js:258-261 | recording and queueing one more new key keeps the queue's growth exact |
| Search.LayeredStep | rushout.js:245-262 | popping the head, expanding it and appending the new keys, one move further, keeps the breadth-first order |
| Search.StepRange | rushout.js:245-262 | after a step, every queued key lies d or d + 1 moves out, where d is the popped key's distance |
| Search.StepSorted | rushout.js:245-262 | after a step, the queued keys' distances still never decrease |
| Search.StepCovers | rushout.js:245-262 | after a step, every visited key is expanded or still queued |
| Solving.ChainStep | rushout.js:250-253 | putting the parent board in front of the board its move reached extends a chain of moves |
| Solving.ChainHead | rushout.js:254 | a chain depends on its first board only through that board's cars, so the sentinel can be the start board |
| Solving.TreeAdd | rushout.js:258-259 | recording a new key with a recorded parent, reached by a generated move, keeps every entry linked back to the start's empty entry |
| Solving.QueuedAdd | rushout.js:260 | pushing a valid board under a new key keeps the queue matched with its keys |
| Solving.SearchOkAdd | rushout.js:258-260 | recording a generated move's board as a new state and queueing it keeps the search state consistent |
| Solving.ProgressAdd | rushout.js:257-262 | entering a new move's key keeps the old entries; it is queued one move further and recorded |
| Solving.ExpandStart | rushout.js:257 | before the expansion loop, its invariant holds of the unchanged search state |
| Solving.ExpandAdd | rushout.js:258-261 | recording a move whose key is new keeps the expansion loop's invariant |
| Solving.ProgressSkip | rushout.js:258 | helper: passing over a move whose key is already recorded keeps the bookkeeping |
| Solving.ExpandSkip | rushout.js:258 | passing over a move whose key is already in `states` keeps the invariant |
| Solving.SolveStart | rushout.js:235-239 | the initial state, with only the start recorded and queued, is consistent and explored |
| Solving.SolvePop | rushout.js:245 | the dequeued board is a valid board with a main car, recorded under its own key, and the rest of the queue stays consistent |
| Solving.SolveFound | rushout.js:246-255 | when the dequeued board is solved, no path from the start reaches a solved configuration in fewer moves than its distance; a solved start is the dequeued board itself, at distance 0 |
| Solving.SolveStep | rushout.js:245-262 | one expansion keeps the search's breadth-first bookkeeping, and makes progress: a new key, or a shorter queue |
| Solving.SolveEnd | rushout.js:242-266 | an exhausted queue means no path from the start reaches a solved configuration, and the key of every reachable configuration is recorded |
| Solving.TreePath | rushout.js:250-259 | every recorded key's parent links lead back to the start along a path of generated moves ending on that key's configuration |
| Solving.TreeReachable | rushout.js:242-266 | every key recorded in `states` is that of a configuration reachable from the start |
| Solving.Solver.constructor | rushout.js:232-236 | `states` holds only the start board's key, with an empty entry |
| Solving.Solver.Solve | rushout.js:238-267 | None only when no sequence of moves from the start reaches a solved board; otherwise the list starts with the start's empty entry, follows generated moves, ends on a solved board, and is no longer than any solution; a solved start gives the one-entry list; the start's entry is kept; every key left in `states` is that of a board reachable from the start (`Search.AllReachable`), and on None `states` holds the key of every reachable board (`Search.AllRecorded`) |
| Solving.Solver.Search | rushout.js:239-266 | the search loop's result satisfies `Solving.Answers` (the three promises of `Solve`); the states map it returns keeps the start's entry, holds only reachable keys, and on None holds all of them |
| Solving.Solver.Finish | rushout.js:246-256 | the moves list rebuilt for a dequeued solved board is a shortest solution, and `[start]` when the start is solved |
| Solving.Solver.ExpandHead | rushout.js:245-262 | with b's generated moves in hand, popping and expanding b keeps the loop invariant, keeps existing entries, and records a new key or shortens the queue |
| Solving.Solver.Advance | rushout.js:245-262 | after dequeuing an unsolved board and expanding it, the loop invariant holds, with the board now expanded; existing entries are kept; a new key is recorded or the queue is shorter |
| Solving.Solver.Expand | rushout.js:257-262 | existing entries of `states` are never overwritten; each move to a new key is recorded once, with the board as parent, and queued one move further; every move's key ends up recorded |
| Solving.Solver.Rebuild | rushout.js:247-255 | following the parent links gives a chain of generated moves, from the start's empty entry to b's configuration, with as many moves as b's distance |

## Left out

- The user interface (`BoardView`, `BoardEditor`, `loadUrlBoardString`, `main`, rushout.js:270-555) is DOM, CSS, timer, event and `location.hash` code with no bearing on the engine.
- The constants `CAR_COLORS` and `BOARD_CELL_SIZE` (rushout.js:3-25) are left out, since they only affect rendering.
- `solve`'s `iterations` and `maxQueueLength` counters and its `console.log` output (rushout.js:240-244, 264-265) are left out, since they are diagnostics.
- The first `isSolved` accessor (rushout.js:104-106) is left out. The later one at rushout.js:225-227 replaces it in the class body, and only the later one is modelled.
- Configs.KeyOf: the key is a sequence of `(symbol, x, y)` entries, not the concatenated string. The two carry the same information only while every coordinate is a single digit, as on a loaded 6 x 6 board (coordinates 0 to 5). With longer numbers the string can collide: cars '1' and '2' at (0, 1) and (23, 0) give `10.1223.0`, and so do the same cars at (0, 12) and (3, 0). The model's key tells them apart.
- Solving.Solver.Search: the search runs on a local states map, which `Solve` stores into the `states` field when the search returns. The source updates `this.states` in place, but nothing observes the field while the search runs.
- Solving.Solver.Expand works on the map and queue as values; the JS `push` onto the shared queue array is not modelled.
- Solving.Solver.Solve requires the states map as the constructor leaves it. A second `solve` on the same solver, which would start from the states the first call left behind, is not modelled.
- Solving.Solver.Solve requires a start board with a main car. Without one, `isSolved` throws in the source.
- Boards.Board.IsSolved has the same requirement, for the same reason.
- Solving.Solver.Rebuild states that the last entry holds b's configuration, not that it is the object b.
- Moves.MoveChangesOneCar needs unique symbols. With a repeated symbol, `getCarById` moves the first car with that symbol, and the model covers that case through `Moves.SlideTo` without the one-car lemma.
- Boards.Board.FindPossibleMoves does not promise that its boards are fresh or distinct objects. Each one is fresh where `Boards.Board.SlideClone` creates it. Nor does it promise that `car` in a move record is the same object as the clone's car: object identity of cars is not modelled, since a car is a value.
- Boards.Board.Clone: the clone's cars are equal values. That no `Car` object is shared is a statement about aliasing, which values cannot express.
- Boards.Board.ToString requires every index it writes to lie inside the `width * height` buffer. A JS array that grows past its end is not modelled.
- Boards.Board.ToStringLines requires the cars to lie in the grid, since the source fails or grows rows otherwise.
- Boards.Board.LoadBoard requires a text of at least 36 characters and reads its first 36, as the source does; `loadUrlBoardString` may pass a longer hash string. A shorter text is not modelled: the source hard-codes the 6 x 6 grid and reads `undefined` past its end.
- Loading.Load works on Unicode scalar values. JS indexes a string by UTF-16 code units, so a symbol outside the Basic Multilingual Plane takes two cells in the source and one in the model.
- Loading.RenderLoad characterizes well-formed grids as renderings of canonical car lists. That these are exactly the grids where each symbol forms one straight, contiguous run is not proved.
- Car sizes and board dimensions are natural numbers and coordinates are unbounded integers. JS numbers are doubles, but every value here is a small integer.
