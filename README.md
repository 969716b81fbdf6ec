# py-conway: the Game engine

A model of the `Game` class of py-conway (`circuitpython/pyportal/lib/py_conway/game.py`).
The class runs Conway's Game of Life on a rectangular board of 0/1 cells. It has
four states, Ready, Running, Stasis and Finished, and four operations.

- `start` restores the seed.
- `stop` finishes a running game.
- `reseed` installs a fresh random seed.
- `run_generation` applies the rule once to every cell. It reports Stasis when the new
  board equals the current board or the board kept from one generation earlier.

Neighbours are counted in one of two ways:

- With walls (`enforce_boundary` true), off-board neighbours are skipped.
- On a torus (`enforce_boundary` false), an index of -1 or of the dimension wraps around.

The project has five modules.

- `Grid` (grid.dfy) holds boards and counts.
  - `CountLive` counts live cells, as `_count_live_cells` does.
  - `Zeros` builds an empty board, as `_create_zeros` does.
  - Lemmas say how one written cell changes the count.
- `Life` (life.dfy) is the reference definition of neighbour counting and of one generation (`NextBoard`).
  - The wrap-around is stated with the modulus.
  - Lemmas tie the count to the set of live neighbours in the board's 3×3 window.
  - Further lemmas show what the two edge policies do at corners, in the interior and on boards smaller than the neighbourhood.
  - Others state the three rules and the B3/S23 rule on 0/1 boards.
- `Lifecycle` (lifecycle.dfy) holds the fields of a game as one value (`Snapshot`), with one transition function per operation.
  - `Wf` is the invariant every reachable game keeps.
  - Lemmas state the state machine's properties: stasis is sticky, a detected stasis freezes the board, start and reseed keep a stale previous board, and when the live count is exact.
- `Engine` (engine.dfy) is the class `Game` with the source's fields, updated in place.
  - Every method is proved to change exactly the fields it should: the new model equals the `Lifecycle` function applied to the old one.
  - `NumNeighbors` follows the source's walk over the eight candidates, branch by branch.
  - The generation loop writes a copy cell by cell. Its live count starts from a recount and is adjusted by each change, and it is proved to equal `NextBoard` and its live count.
- `Scenarios` (scenarios.dfy) works complete games on small boards: a dot that dies, a blinker, a block, a too-small torus, and a stale previous board.

Python's `randint` grid is a parameter: the caller supplies the 0/1 grid of the board's
shape that the random generator would have produced.

## Model

| member | source | states |
|---|---|---|
| Grid.CountLive | circuitpython/pyportal/lib/py_conway/game.py:93-106 | the number of cells holding 1, never more than the number of cells |
| Grid.Zeros | circuitpython/pyportal/lib/py_conway/game.py:108-116 | a board of `rows` rows of `columns` zeros; a negative size gives nothing, as `range` does |
| Grid.CountLiveUpdate | circuitpython/pyportal/lib/py_conway/game.py:242-249 | writing v into one cell changes the live count by exactly what that cell loses or gains, the delta the generation loop applies |
| Grid.CountLiveDead | circuitpython/pyportal/lib/py_conway/game.py:104-106 | a board without a live cell counts 0 |
| Life.NeighborCoords | circuitpython/pyportal/lib/py_conway/game.py:156-163 | eight candidates, none of them the cell itself, each at most one step away in each direction |
| Life.NeighborCoordsDistinct | circuitpython/pyportal/lib/py_conway/game.py:156-163 | the eight candidates are pairwise distinct, so the source's set has eight members |
| Life.Contribution | circuitpython/pyportal/lib/py_conway/game.py:169-191 | one candidate adds the live cell at its position when it is on the board, and nothing off the board with walls; on the torus the position is reduced modulo the height and the width |
| Life.NeighborCount | circuitpython/pyportal/lib/py_conway/game.py:140-194 | a cell has at most 8 live neighbours |
| Life.NextCell | circuitpython/pyportal/lib/py_conway/game.py:242-249 | fewer than 2 or more than 3 neighbours give 0, exactly 3 give 1, and a count of 2 keeps the cell's old value |
| Life.NextBoard | circuitpython/pyportal/lib/py_conway/game.py:238-249 | the next board has the shape of the current one and stays 0/1 |
| Life.CountOverAsSet | circuitpython/pyportal/lib/py_conway/game.py:164-194 | with the boundary enforced, the count over distinct candidates is the number of live on-board candidates |
| Life.LiveOnBoardSnoc | circuitpython/pyportal/lib/py_conway/game.py:164-194 | one more candidate adds its own contribution to the set of live on-board candidates |
| Life.BoundedCountIsLiveWindow | circuitpython/pyportal/lib/py_conway/game.py:164-194 | with walls, the count is the number of live cells in the on-board part of the 3×3 window, centre excluded |
| Life.ContributionCases | circuitpython/pyportal/lib/py_conway/game.py:168-191 | one candidate's contribution, case by case as the walk decides it: an off-board candidate with walls adds 0; on the torus -1 means the last index and the dimension means 0 |
| Life.WrapStep | circuitpython/pyportal/lib/py_conway/game.py:168-189 | for indices one step out of range, the modulus agrees with the walk's -1 → last and dimension → 0 substitutions |
| Life.BoundedCountIsSum | circuitpython/pyportal/lib/py_conway/game.py:153-194 | with walls, the count is the sum over the eight surrounding positions, off-board ones counting 0 |
| Life.TorusCorner | circuitpython/pyportal/lib/py_conway/game.py:168-189 | on the torus, cell (0, 0) counts the cells across both edges, the opposite corner among them |
| Life.InteriorPoliciesAgree | circuitpython/pyportal/lib/py_conway/game.py:164-192 | when every candidate is on the board, the two policies count the same |
| Life.InteriorCellPoliciesAgree | circuitpython/pyportal/lib/py_conway/game.py:164-192 | away from the edges, the two policies give the same neighbour count |
| Life.SingleCellTorus | circuitpython/pyportal/lib/py_conway/game.py:168-189 | on a 1×1 torus, a live cell counts itself eight times; with walls it counts none |
| Life.NextBoardRules | circuitpython/pyportal/lib/py_conway/game.py:242-249 | fewer than 2 or more than 3 neighbours give 0, exactly 3 give 1, and 2 keep the cell |
| Life.NextBoardIsB3S23 | circuitpython/pyportal/lib/py_conway/game.py:242-249 | on a 0/1 board, a live cell survives with 2 or 3 neighbours and a dead one is born with exactly 3 |
| Life.DeadCountOver | circuitpython/pyportal/lib/py_conway/game.py:190-194 | on an empty board, no candidate adds anything, under either policy |
| Life.DeadBoardIsFixedPoint | circuitpython/pyportal/lib/py_conway/game.py:238-249 | the empty board is its own successor under both policies |
| Life.IsolatedCellDies | circuitpython/pyportal/lib/py_conway/game.py:242-245 | with walls, a cell without a live on-board neighbour has count 0 and is dead in the next board |
| Lifecycle.Wf | circuitpython/pyportal/lib/py_conway/game.py:51-266 | the invariant of every game: seed, current and previous board are 0/1 boards of the recorded size, the counter is not negative, and the live count is that of the current board or, after a detected stasis, that of the board the step computed |
| Lifecycle.Init | circuitpython/pyportal/lib/py_conway/game.py:51-91 | construction: without a seed, ZeroSize when a size is 0, otherwise the random grid or the zero board of the requested size; with a seed, NonBinarySeed on a cell other than 0 or 1, otherwise a Ready game on the seed with the seed's own size |
| Lifecycle.Start | circuitpython/pyportal/lib/py_conway/game.py:196-201 | start puts the seed back as current board, resets the counter to 0, recounts and sets Running; the previous board is kept |
| Lifecycle.Stop | circuitpython/pyportal/lib/py_conway/game.py:203-207 | stop finishes a running game with a recount of the current board and leaves every other state alone |
| Lifecycle.Reseed | circuitpython/pyportal/lib/py_conway/game.py:209-219 | outside Running, the fresh grid becomes seed and current board with its count and the game is Ready; while running nothing changes |
| Lifecycle.Step | circuitpython/pyportal/lib/py_conway/game.py:221-266 | outside Running and Stasis nothing changes; otherwise the counter goes up by one and the count is that of the new board; a new board equal to the current or the previous one sets Stasis and keeps both boards, and any other moves the boards on and leaves the state alone |
| Lifecycle.InitWithoutSeed | circuitpython/pyportal/lib/py_conway/game.py:72-80 | without a seed, construction fails with ZeroSize exactly when a size is 0; otherwise the seed has the requested shape, is the random grid or all zeros, and the count matches the board |
| Lifecycle.InitWithSeed | circuitpython/pyportal/lib/py_conway/game.py:81-91 | with a seed, construction fails with NonBinarySeed exactly when a cell is neither 0 nor 1; otherwise the board size is the seed's own and the game is Ready on the seed |
| Lifecycle.InitWf | circuitpython/pyportal/lib/py_conway/game.py:51-91 | every game construction yields satisfies the invariant |
| Lifecycle.StartResets | circuitpython/pyportal/lib/py_conway/game.py:196-201 | start restores the seed, generation 0, Running and an exact count; twice is once; two games with one seed agree after start except for the previous board, which start keeps |
| Lifecycle.StartAfterRun | circuitpython/pyportal/lib/py_conway/game.py:196-201 | after any number of generations, start gives back the started game, apart from the previous board |
| Lifecycle.StopOnlyFromRunning | circuitpython/pyportal/lib/py_conway/game.py:203-207 | stop finishes a running game with a recounted live count, changes nothing in any other state (Stasis included), and is idempotent |
| Lifecycle.ReseedInstalls | circuitpython/pyportal/lib/py_conway/game.py:209-219 | reseed is ignored while running; otherwise the grid becomes seed and board, the game is Ready, the count is exact, and the counter and previous board are kept |
| Lifecycle.StepInactive | circuitpython/pyportal/lib/py_conway/game.py:229-230 | outside Running and Stasis, a generation changes nothing |
| Lifecycle.StepEffect | circuitpython/pyportal/lib/py_conway/game.py:251-266 | an active step adds one generation and sets the new board's count. When the new board is the current or the previous one, the step reports Stasis and keeps both boards; otherwise it moves the boards on and leaves the state alone |
| Lifecycle.StepWf | circuitpython/pyportal/lib/py_conway/game.py:221-266 | a generation keeps the invariant |
| Lifecycle.LifecycleWf | circuitpython/pyportal/lib/py_conway/game.py:196-219 | start, stop and reseed keep the invariant |
| Lifecycle.RunKeepsSetup | circuitpython/pyportal/lib/py_conway/game.py:221-266 | any number of generations keeps the invariant, the seed, the size and the edge policy |
| Lifecycle.StasisPersists | circuitpython/pyportal/lib/py_conway/game.py:256-266 | no number of generations leaves Stasis, and stop ignores it |
| Lifecycle.FrozenAfterStasis | circuitpython/pyportal/lib/py_conway/game.py:254-266 | once a step keeps the board, every later step only adds to the generation counter: a 2-cycle stops alternating |
| Lifecycle.DetectStep | circuitpython/pyportal/lib/py_conway/game.py:256-262 | a step that keeps the board has detected stasis, and its next step would detect it again |
| Lifecycle.FrozenRun | circuitpython/pyportal/lib/py_conway/game.py:254-266 | from a detected stasis, k generations add exactly k to the counter and change nothing else |
| Lifecycle.FrozenRunFrom | circuitpython/pyportal/lib/py_conway/game.py:254-266 | the same, whatever the counter's starting value |
| Lifecycle.FrozenStep | circuitpython/pyportal/lib/py_conway/game.py:256-262 | from a detected stasis, one generation only adds one to the counter |
| Lifecycle.TwoCycleDetected | circuitpython/pyportal/lib/py_conway/game.py:258-266 | a board that returns after two generations is reported as Stasis on the second, with its successor left as the current board |
| Lifecycle.StalePreviousBoard | circuitpython/pyportal/lib/py_conway/game.py:261-265 | a previous board left by an earlier game survives reseed and start. In that case the first step reports Stasis, installs nothing, and takes the live count of the stale board |
| Lifecycle.DeadBoardStasis | circuitpython/pyportal/lib/py_conway/game.py:254-257 | a running game on an empty board reaches Stasis in one step with 0 live cells, under either policy |
| Lifecycle.LiveCellsExact | circuitpython/pyportal/lib/py_conway/game.py:251-266 | outside Stasis, the live count after any number of generations is that of the current board |
| Engine.Game.constructor | circuitpython/pyportal/lib/py_conway/game.py:51-91 | the new game's fields are the successful construction of Lifecycle.Init, and it satisfies the invariant |
| Engine.Game.Create | circuitpython/pyportal/lib/py_conway/game.py:68-91 | construction fails exactly when Lifecycle.Init fails, with the same error; otherwise it yields a fresh game equal to Init's result |
| Engine.Game.ScanSeed | circuitpython/pyportal/lib/py_conway/game.py:128-138 | the scan accepts exactly the seeds whose every cell is 0 or 1 |
| Engine.Game.NumNeighbors | circuitpython/pyportal/lib/py_conway/game.py:140-194 | the walk over the candidates returns the reference neighbour count, at most 8 |
| Engine.Game.Start | circuitpython/pyportal/lib/py_conway/game.py:196-201 | the new fields are Lifecycle.Start of the old ones, and the invariant holds |
| Engine.Game.Stop | circuitpython/pyportal/lib/py_conway/game.py:203-207 | the new fields are Lifecycle.Stop of the old ones, and the invariant holds |
| Engine.Game.Reseed | circuitpython/pyportal/lib/py_conway/game.py:209-219 | the new fields are Lifecycle.Reseed of the old ones with the supplied random grid, and the invariant holds |
| Engine.Game.ComputeGeneration | circuitpython/pyportal/lib/py_conway/game.py:232-249 | the copy written cell by cell is NextBoard of the current board; the count, started from a recount and adjusted by each change, is the copy's live count |
| Engine.Game.RunGeneration | circuitpython/pyportal/lib/py_conway/game.py:221-266 | the new fields are Lifecycle.Step of the old ones, and the invariant holds |
| Engine.Game.Advance | circuitpython/pyportal/lib/py_conway/game.py:251-266 | the bookkeeping after the loop (counter, count, stasis test, board swap) completes Lifecycle.Step |
| Scenarios.DotVanishes | circuitpython/pyportal/lib/py_conway/game.py:242-245 | a lone live cell in a walled 3×3 board dies, leaving the empty board |
| Scenarios.CornersGiveDot | circuitpython/pyportal/lib/py_conway/game.py:242-249 | three live corners of a walled 3×3 board give the lone centre cell |
| Scenarios.BlinkerTurns | circuitpython/pyportal/lib/py_conway/game.py:242-249 | a horizontal blinker becomes a vertical one |
| Scenarios.BlinkerTurnsBack | circuitpython/pyportal/lib/py_conway/game.py:242-249 | the vertical blinker becomes the horizontal one again |
| Scenarios.BlockIsStillLife | circuitpython/pyportal/lib/py_conway/game.py:242-249 | the 2×2 block in a walled 3×3 board is unchanged |
| Scenarios.SeededGame | circuitpython/pyportal/lib/py_conway/game.py:81-91 | a 3×3 seed builds a Ready game on that seed with its live count |
| Scenarios.FirstStep | circuitpython/pyportal/lib/py_conway/game.py:264-266 | the first generation of a game whose seed changes installs the successor and keeps the seed as previous board |
| Scenarios.SecondStep | circuitpython/pyportal/lib/py_conway/game.py:261-262 | a running game whose successor is its previous board reports Stasis, installs nothing, and counts the successor |
| Scenarios.DotGameFinishes | circuitpython/pyportal/lib/py_conway/game.py:196-266 | a game on the lone dot runs one generation to the empty board and is then stopped, with the dot left as previous board |
| Scenarios.StaleHistoryFalseStasis | circuitpython/pyportal/lib/py_conway/game.py:258-262 | that finished game, reseeded with three corners and started, reports Stasis on the first generation. It installs nothing, and its live count 1 sits beside a board of 3 live cells |
| Scenarios.BlinkerFreezes | circuitpython/pyportal/lib/py_conway/game.py:256-266 | a walled blinker turns, reports Stasis on the second generation, and then stays put for any number of further generations |
| Scenarios.BlinkerTrace | circuitpython/pyportal/lib/py_conway/game.py:238-266 | the first two generations of the blinker game, ending in a detected stasis |
| Scenarios.BlockGame | circuitpython/pyportal/lib/py_conway/game.py:254-257 | a game on the block reports Stasis on the first generation with 4 live cells |
| Scenarios.FullTwoByTwo | circuitpython/pyportal/lib/py_conway/game.py:168-192 | a full 2×2 board is a still life with walls but dies out on the torus |
| Scenarios.TorusTwoByTwo | circuitpython/pyportal/lib/py_conway/game.py:168-192 | on the full 2×2 torus, every cell counts 8 live neighbours, because wrapped candidates land on the same cells more than once |
| Scenarios.TorusCellCount | circuitpython/pyportal/lib/py_conway/game.py:168-192 | each of the eight wrapped candidates of a cell of the full 2×2 torus is live |

## Behaviour of the code as written

Where the class's own docstrings or the usual description of the library say otherwise,
the model follows the code.

- The docstring of `enforce_boundary` (game.py:64-66) says true means wrap around. The code does the opposite: true makes walls and false wraps.
- A 2-cycle is caught on the generation that returns to the previous board. For a blinker that is the second call of `run_generation`, not the third (`Scenarios.BlinkerFreezes`).
- After a step reports Stasis, no later step moves the boards: the 2-cycle branch installs nothing, so an oscillator stops alternating (`Lifecycle.FrozenAfterStasis`).
- `run_generation` never sets Running again, so Stasis is left only by `start` or `reseed` (`Lifecycle.StasisPersists`).
- `stop` acts only in Running, so a game in Stasis cannot be stopped (`Lifecycle.StopOnlyFromRunning`).
- After a 2-cycle is detected, `live_cells` is the count of the board that was computed and not installed. It may differ from the count of the current board. `Lifecycle.Wf` allows exactly that; `Lifecycle.LiveCellsExact` says when the count is exact.
- `_previous_board` is never cleared. A stale one can make the first step after `reseed` and `start` report Stasis for a board that has no period 2 (`Scenarios.StaleHistoryFalseStasis`).
- On a torus smaller than 3×3, one cell can be counted more than once. So a full 2×2 board is a still life with walls but dies out on the torus (`Scenarios.FullTwoByTwo`).
- Construction without a seed rejects only sizes equal to 0. A negative size gives an empty board, because `range` of a negative number is empty.
- When there is no seed and no random flag, `live_cells` keeps its class default 0, which is the count of the all-zero seed.

## Left out

- Randomness: `_create_random_seed` and `randint` are not modelled. The random grid is a parameter that must be a 0/1 grid of the board's shape.
- Exception messages: `InitError` is two error values, `ZeroSize` and `NonBinarySeed`. The message text is not modelled.
- Seeds with no row or with rows of different lengths are excluded by a precondition (`Lifecycle.InitRequires`). On those the source raises Python's own `IndexError`, or it indexes unevenly later. That behaviour is not modelled.
- Aliasing: boards here are values, so no sharing between lists can be observed. The source copies rows with `row[:]` in five places (game.py:90, 198, 218, 235, 266). It shares a list in two places, and the model does not capture either. First, `self.seed = seed` (game.py:87) keeps the caller's own list, so a caller that later changes that list changes what a later `start` (game.py:198) copies. Second, `_previous_board = self.current_board` (game.py:265) shares the old current board, which is never written again.
- Python's dynamic typing: cells are integers, so a seed value such as `True` or `1.0` is not modelled.
- `PseudoEnum` (helpers.py) is not part of this model: the four states are a datatype.
- The front ends `circuitpython/pyportal/code.py` and `cli/run-conway.py` (display, input and timing) are not part of this model.
