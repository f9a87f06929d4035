# procon26 solver core, modelled in Dafny

This project models the core of a solver for the 26th Procon puzzle. The
board is 32x32, and some of its cells are obstacles. Up to 256 stones,
each drawn on an 8x8 grid, must be placed on the free cells. Each stone
may be flipped and turned by quarter turns, and stones must not overlap.
The solver writes one answer line per stone: the corner of the stone's
8x8 box, the flip (`H`/`T`) and the rotation in degrees. A stone that is
not placed gets an empty line. The model covers
`main/solver.cpp` and `include/common.hpp`:

- **Geometry** (`geometry.dfy`): `Point` with `to1d`/`from1d`, raster
  order, and `isInsideField`.
- **Transform** (`transform.dfy`): the 8x8 table of board symmetries.
  - `Trans` is the pure meaning: a walk of quarter turns, mirroring on
    arrival at orientation 0 or 4.
  - `Table.Build` is the imperative construction of `Transform::build`,
    done over `array2` grids with the flip, transpose and rotate lambdas
    as methods.
- **Fields** (`fields.dfy`): `Field::transform` and `BitField::transform`.
- **FieldHash** (`fieldhash.dfy`): the Zobrist-style table and the hash
  of an occupancy.
- **Patterns** (`patterns.dfy`): `g.init`, as one `Rules` value: the
  obstacle board in all 8 orientations, the free-cell count, the offset
  list and anchor of every stone orientation (repeats dropped), and the
  2048-bit window masks.
- **States** (`states.dfy`): `GameState`, as a class whose fields are the
  value-typed `std::array`/`bitset` members. It covers:
  - `available`, `getAvailableList`, `put`, `undo`, `preHash`,
    `calcSimpleScore`, `trans*`, `init`, `clone` and `addScore`;
  - the `Consistent` invariant: the hash is the XOR of the words of the
    occupied cells seen in orientation 0, and the free-cell count matches.
- **Pool** (`pool.dfy`): the `alloc`/`free` free list, as an arena of
  numbered slots.
- **Target** (`target.dfy`): `getNextTargetPos`, meaning the
  breadth-first area labelling, the smallest area, and its first cell
  beside a stone.
- **BackCalc** (`backcalc.dfy`): `backCalcPutList` and
  `GameState::toAnswer`, with the round trip from placements to board and
  back to placements.
- **Search** (`search.dfy`): `beamSearch`, with its buckets by free-cell
  count, the `hash_map` pruning, `add_next`, the `nth_element` cut and
  `firstPut`.
- **Common** (`common.dfy`): `SolverParameterParser::parse`,
  `ProblemReader::read`, `SolverAnswerBuilder` and `SolverAnswerWriter`.

What the program's design promises differs from what `solver.cpp` does in
three places; the model follows the code:

- `beamSearch` never sweeps bucket 1023 (see Findings). So a state with
  1023 free cells, such as a single one-cell stone on an empty board, is
  never expanded or freed.
- The states `firstPut` makes are never candidates for the answer.
  `*best` changes only inside `add_next` (solver.cpp:733-739). The initial
  states are filed into their buckets (solver.cpp:723-726) without being
  compared with it, and `best_state` starts as a fresh board
  (solver.cpp:813). So for a single one-cell stone on an empty board, the
  answer stays the empty board, even with every bucket swept: expanding
  that state makes no child, because its only stone is already used.
  Search.FileAll and Search.Distribute take best as an input and return
  no new one. Search.AddNext is the only member that may replace it.
- The design says every smallest area touches a stone. `getNextTargetPos`
  instead reaches `assert(false)` when the smallest area touches none, for
  example an empty hole enclosed by obstacles. The model keeps this as the
  `AssertFails` outcome.

## Model

| member | source | states |
|---|---|---|
| Geometry.AddLaws | main/solver.cpp:60 | `operator+` on points is commutative and associative, (0, 0) is its identity, and `operator-` undoes it |
| Geometry.Sub | main/solver.cpp:61 | adding the second point back gives the first: Sub is the inverse of Add |
| Geometry.Neighbour | main/solver.cpp:49-50 | each of the four directions moves to a cell at distance exactly 1 |
| Geometry.LessIsStrictTotalOrder | main/solver.cpp:71 | raster order (row, then column) is irreflexive, asymmetric, transitive and total |
| Geometry.LessTranslate | main/solver.cpp:71 | translating both points by one offset keeps their raster order |
| Geometry.Shr5 | main/solver.cpp:317 | `v >> 5` on a signed value is the floor of v / 32 |
| Geometry.InsideField | main/solver.cpp:315-318 | `!(x >> 5 \| y >> 5)` holds exactly when 0 <= x, y < 32 |
| Geometry.To1d | main/solver.cpp:72-76 | `y << 5 \| x` of a board cell is a packed index below 1024 |
| Geometry.From1d | main/solver.cpp:77-80 | the unpacked cell is on the board and packs back to the same index |
| Geometry.To1dInjective | main/solver.cpp:72-76 | two board cells pack to the same index exactly when they are equal |
| Geometry.From1dTo1d | main/solver.cpp:77-80 | unpacking a packed cell gives the cell back |
| Transform.Trans | main/solver.cpp:138-147 | the cell that p of orientation `from` becomes in `to` is reached by Distance(from, to) single steps, each a quarter turn with a mirror on arrival at 0 or 4 |
| Transform.TransIdentity | main/solver.cpp:139-140 | the table from an orientation to itself is the identity |
| Transform.TransCompose | main/solver.cpp:138-147 | going from a to b and then from b to c is going from a to c |
| Transform.StepsCompose | main/solver.cpp:141-146 | step walks compose modulo a full turn of 8 steps |
| Transform.StepsFullTurn | main/solver.cpp:141-146 | a full turn of 8 more steps changes nothing |
| Transform.TransBijective | main/solver.cpp:138-147 | for fixed orientations the map is a bijection of the board: into the board, inverted by the reverse map, injective and onto |
| Transform.Table.constructor | main/solver.cpp:84-85 | a fresh, well-shaped 8x8 table of 32x32 grids that is not yet built |
| Transform.Table.Lookup | main/solver.cpp:88-99 | a lookup in the built table returns a board cell and equals Trans(from, to, p) |
| Transform.Table.Build | main/solver.cpp:101-148 | after build, every one of the 64 grids holds Trans at every cell |
| Transform.Table.SaveAllFrom | main/solver.cpp:138-147 | one pass of the outer loop fills every table towards orientation i |
| Transform.Table.SaveNext | main/solver.cpp:141-145 | saving the grid of orientation j, k steps from i, extends the filled tables by one |
| Transform.Table.Save | main/solver.cpp:134-136 | the save lambda fills table[from][to] and leaves every other table unchanged |
| Transform.Snapshot | main/solver.cpp:134-136 | the saved grid is a copy by value of the array |
| Transform.Advance | main/solver.cpp:143-144 | rotate90, then flip on arrival at 0 or 4, turns the grid for the previous orientation into the one for j |
| Transform.RotateHolds | main/solver.cpp:143 | rotate90 turns the grid for orientation j into its quarter-turned form |
| Transform.FlipHolds | main/solver.cpp:144 | the extra flip turns that into the mirrored form |
| Transform.SteppedIsTrans | main/solver.cpp:141-145 | the turned (and mirrored) grid holds the table entry of the next orientation |
| Transform.Copy | main/solver.cpp:112 | the lambdas take their grid by value: a fresh array with the same contents |
| Transform.Flip | main/solver.cpp:112-123 | horizontal: every row is reversed; vertical: the order of the rows is reversed |
| Transform.ReverseRow | main/solver.cpp:115 | std::reverse of one row reverses that row and leaves the others |
| Transform.SwapRows | main/solver.cpp:119 | std::swap of two rows exchanges them and leaves the others |
| Transform.Transpose | main/solver.cpp:126-130 | the swap loop over j >= i transposes the grid |
| Transform.Rotate90 | main/solver.cpp:125-132 | cell (x, y) takes the value of (y, 31 - x): a quarter turn |
| Fields.Source | main/solver.cpp:182-191 | the cell whose contents land on packed cell k is a board cell |
| Fields.SourceAt | main/solver.cpp:182-191 | q is the source of k exactly when k is the image of q |
| Fields.FilledAll | main/solver.cpp:184-189 | once every cell is written, each cell's value sits at its image and each cell holds its source's value |
| Fields.TransformLayer | main/solver.cpp:182-208 | Field::transform and BitField::transform: every cell's value moves to its image under Trans, and every cell holds the value of its source |
| FieldHash.Index | main/solver.cpp:168 | `y << 9 \| x << 4` is a slot of the 16384-word table with its four size bits clear |
| FieldHash.IndexInjective | main/solver.cpp:168 | different cells use different slots |
| FieldHash.GetIgnoresSize | main/solver.cpp:163-169 | get returns the same word whatever stone size is passed, since the size bits are commented out |
| FieldHash.CellWordGet | main/solver.cpp:163-169 | the word of a packed cell is the one get returns for it |
| FieldHash.XorRangeEmpty | main/solver.cpp:391-395 | the hash of an empty board is 0, as init sets it |
| FieldHash.HashToggle | main/solver.cpp:515 | toggling one cell's occupancy XORs exactly that cell's word into the hash |
| Patterns.PatternGrid | main/solver.cpp:245-269 | orientation j of a stone as an 8x8 grid |
| Patterns.Scan | main/solver.cpp:280-292 | the scanned cells are set cells of the grid before position c |
| Patterns.ScanAscending | main/solver.cpp:280-292 | the raster scan lists cells in strictly ascending order |
| Patterns.ScanMembers | main/solver.cpp:280-292 | a cell is listed exactly when it is set and lies before position c |
| Patterns.OffsetsShape | main/solver.cpp:276-300 | every offset list starts at (0, 0), is strictly ascending (the order of std::set) and lies within -8 < x < 8, 0 <= y < 8, so the asserts at 298-299 hold |
| Patterns.OffsetsCells | main/solver.cpp:276-300 | anchor plus offset ranges exactly over the set cells of the grid |
| Patterns.Seed | main/solver.cpp:247-257 | the first loop writes orientation 0 as given and orientation 4 mirrored, and nothing else |
| Patterns.TurnedPattern | main/solver.cpp:259-269 | a quarter turn of orientation j - 1 is orientation j, for j not 0 or 4 |
| Patterns.QuarterTurn | main/solver.cpp:262-267 | cell (x, y) of the previous grid goes to (7 - y, x) |
| Patterns.RotateAll | main/solver.cpp:259-269 | the second loop leaves the grids of all eight orientations |
| Patterns.ScanOffsets | main/solver.cpp:276-292 | the scan of one orientation yields its offset list and its anchor |
| Patterns.ScanCell | main/solver.cpp:282-290 | one cell of the scan keeps the scan state |
| Patterns.EmitOffsets | main/solver.cpp:295-302 | a kept orientation's offsets become its vector and set bit idx at exactly its covered window cells |
| Patterns.ForbidAll | main/solver.cpp:303-309 | a repeated orientation sets bit idx in every window cell |
| Patterns.SeenSetsKept | main/solver.cpp:274-294 | an orientation is kept exactly when its offset set was not seen before, and the seen sets then grow by it |
| Patterns.OrientationEntry | main/solver.cpp:275-310 | orientation j yields its vector and origin, updates the seen sets, and sets exactly its mask bits |
| Patterns.StoneVectors | main/solver.cpp:274-311 | all eight orientations of one stone give its vectors and origins, and add exactly its mask bits |
| Patterns.Field0 | main/solver.cpp:233-238 | default_field[0] is the obstacle board, and default_empty_count is 1024 minus the obstacles |
| Patterns.DefaultFields | main/solver.cpp:233-243 | default_field[t] is default_field[0] seen in orientation t |
| Patterns.StonePatterns | main/solver.cpp:245-269 | the first two stone loops leave, for each stone, its eight orientation grids |
| Patterns.AllVectors | main/solver.cpp:271-311 | the third loop leaves every stone's vectors and origins, and the full mask |
| Patterns.Init | main/solver.cpp:226-312 | g.init builds the transform table and returns exactly RulesOf(problem) |
| Patterns.RulesOfWf | main/solver.cpp:226-312 | g.init's tables are well formed: offset lists, 8 orientations per stone, sound mask bits, 8 default fields |
| Patterns.KeptDistinct | main/solver.cpp:294-295 | two kept orientations of a stone have different offset sets |
| Patterns.RepeatForbidden | main/solver.cpp:303-309 | a repeated orientation has no offsets, origin (0, 0), and its bit in every window cell, so it is never available |
| States.Fresh | main/solver.cpp:386-396 | the state init makes is well shaped |
| States.FreshConsistent | main/solver.cpp:386-396 | a fresh state is consistent, has no stone, and has hash 0 |
| States.AvailableFromMembers | main/solver.cpp:462-471 | getAvailableList's list holds exactly the available placements at (x, y), each once, in increasing 8 * id + r |
| States.MaskKeepsAvailable | main/solver.cpp:450-463 | the window mask never rules out an available placement, so the filter only saves work |
| States.PutSpec | main/solver.cpp:504-520 | the state after put is well shaped |
| States.UndoSpec | main/solver.cpp:522-538 | the state after undo is well shaped |
| States.PutOcc0 | main/solver.cpp:508-516 | after put, the occupancy seen in orientation 0 is the old one with the stone's cells set |
| States.UndoOcc0 | main/solver.cpp:526-534 | after undo, it is the old one with the stone's cells cleared |
| States.PutConsistent | main/solver.cpp:504-520 | put keeps a state consistent, and the hash it leaves is the hash of the new occupancy |
| States.UndoConsistent | main/solver.cpp:522-538 | undo keeps a state consistent |
| States.PutThenUndo | main/solver.cpp:504-538 | undo after put of the same placement is allowed and restores the state exactly |
| States.TransSpec | main/solver.cpp:610-616 | trans gives a well-shaped state |
| States.TransOcc0 | main/solver.cpp:610-616 | trans does not change what is occupied in orientation 0 |
| States.TransMoves | main/solver.cpp:610-616 | trans moves every cell's id and bit to its image |
| States.TransConsistent | main/solver.cpp:610-616 | trans keeps a state consistent and leaves the used stones, hash, score and free-cell count alone |
| States.TransRoundTrip | main/solver.cpp:610-616 | going to an orientation and back restores the state |
| States.CRem | main/solver.cpp:620 | C++'s truncating `%`: the Euclidean remainder for a non-negative dividend; for a negative one a value in (-n, 0] that differs from the dividend by a multiple of n |
| States.RotateTargetHalf | main/solver.cpp:619-621 | for ts + r >= 0, transRotate stays in the half (0-3 or 4-7) of the current orientation and turns by r modulo 4 |
| States.RotateTargetNegative | main/solver.cpp:619-621 | for ts + r < 0 it can leave the half: from 5 with r = -7 it goes to 2 |
| States.MinAroundUnique | main/solver.cpp:559-570 | min_around_id is determined: at most one value is the minimum |
| States.GameState.Init | main/solver.cpp:386-396 | the state becomes the fresh state |
| States.GameState.Clone | main/solver.cpp:420-430 | a new object with the same fields |
| States.GameState.AddScore | main/solver.cpp:629 | only the score changes, by s |
| States.GameState.Available | main/solver.cpp:475-502 | the result is AvailableSpec: stone exists, unused, orientation kept, every covered cell on the board and free, and a smaller (larger when reverse) id beside the anchor unless no stone is placed yet |
| States.GameState.WindowFilter | main/solver.cpp:449-460 | the bitset holds exactly the mask bits of the window cells that are not free |
| States.GameState.GetAvailableList | main/solver.cpp:447-473 | the list equals AvailableList, which AvailableFromMembers characterises |
| States.GameState.Candidate | main/solver.cpp:462-470 | skipping used or masked indices and testing the rest gives exactly availability |
| States.GameState.PreHash | main/solver.cpp:540-550 | the hash with the words of the covered cells, seen in orientation 0, XORed in; by PutConsistent this is the hash put will leave |
| States.GameState.PutStone | main/solver.cpp:504-520 | the new state is PutSpec of the old one |
| States.GameState.Undo | main/solver.cpp:522-538 | the new state is UndoSpec of the old one |
| States.GameState.CalcSimpleScore | main/solver.cpp:552-574 | size squared, minus id squared for the first stone, else minus weight_diff_id times (id - min_around_id) |
| States.GameState.Trans | main/solver.cpp:610-616 | the new state is TransSpec of the old one |
| States.GameState.TransNext | main/solver.cpp:617 | trans to (trans_state + 1) % 8 |
| States.GameState.TransDefault | main/solver.cpp:618 | trans to orientation 0 |
| States.GameState.TransRotate | main/solver.cpp:619-621 | trans to RotateTarget, the orientation computed with C++'s remainder |
| States.SimpleScore | main/solver.cpp:552-574 | the calcSimpleScore computation on a state value meets IsSimpleScore |
| States.MinAroundId | main/solver.cpp:559-570 | the loops compute the least smaller id around the covered cells, or 255 |
| States.CoverHash | main/solver.cpp:544-548 | the loop XORs exactly the words of the covered cells, seen in orientation 0 |
| States.PlaceCells | main/solver.cpp:508-516 | the covered cells get the id and their bit, other cells keep theirs, and the hash gains the covered words |
| States.ClearCells | main/solver.cpp:526-534 | the covered cells are cleared to 0, other cells keep theirs, and the hash loses the covered words |
| Pool.ReversedAppend | main/solver.cpp:758-761 | freeing `v.back()` and popping until the cut: the slot pushed last is the first one freed |
| Pool.ReversedTwice | main/solver.cpp:758-761 | reading a list from the back twice gives it back, so no slot is lost or repeated |
| Pool.ReversedSlots | main/solver.cpp:758-761 | reversing keeps the slots distinct and the same set |
| Pool.StatePool.constructor | main/solver.cpp:383 | the pool starts with no slot and no live state |
| Pool.StatePool.Alloc | main/solver.cpp:398-411 | the slot at the back of the free list, after a refill of 32768 fresh slots when it is empty; it was not live and now is, and the counters advance |
| Pool.StatePool.Pop | main/solver.cpp:405-406 | taking the back slot makes exactly it live |
| Pool.StatePool.Refill | main/solver.cpp:399-404 | 32768 new slots join the free list and none of them is live |
| Pool.StatePool.Update | main/solver.cpp:420-430 | a method of a live state writes its slot only |
| Pool.StatePool.Free | main/solver.cpp:413-418 | the slot goes back on the free list and stops being live |
| Pool.StatePool.FreeAll | main/solver.cpp:758-761 | freeing a list of live slots, in order |
| Pool.CountersAgree | main/solver.cpp:862-864 | alloc and free counts agree exactly when no slot is live, which is the memory check at the end of solve |
| Target.FreeCellsOcc0 | main/solver.cpp:640-644 | in a state turned to orientation t, the cell where q of orientation 0 lies is free exactly when q is neither occupied nor an obstacle in orientation 0, given the obstacle boards g.init builds |
| Target.Next | main/solver.cpp:685-688 | the neighbour in a direction is another board cell, or -1 off the board |
| Target.NextBack | main/solver.cpp:685-688 | stepping back the opposite way returns to the cell |
| Target.PathReverse | main/solver.cpp:675-698 | a walk through free cells read backwards is a walk |
| Target.PathJoin | main/solver.cpp:675-698 | two walks meeting end to start make one walk |
| Target.ReachShared | main/solver.cpp:675-698 | two cells reached from one cell reach each other |
| Target.AreasAreComponents | main/solver.cpp:675-698 | two free cells get the same area number exactly when one reaches the other through free cells |
| Target.Flood | main/solver.cpp:679-695 | the breadth-first search numbers exactly the unnumbered free cells the seed reaches, and counts them |
| Target.VisitNeighbour | main/solver.cpp:685-694 | visiting one neighbour keeps the search state, and the queue and unnumbered cells shrink together |
| Target.NumberAreas | main/solver.cpp:675-698 | f numbers the 4-connected free areas 1, 2, ... in the raster order of their first cells, and count_id holds their sizes |
| Target.LabelCell | main/solver.cpp:677-696 | one cell of the raster scan keeps the labelling state |
| Target.SmallestArea | main/solver.cpp:701 | min_element over the packed (count, id) pairs picks the smallest area, ties going to the smaller number |
| Target.GetNextTargetPos | main/solver.cpp:661-719 | empty list exactly when no cell is free; else the first cell in raster order of the smallest area with a stone beside it; AssertFails exactly when that area has no such cell |
| Target.FirstCandidate | main/solver.cpp:703-717 | the first cell in raster order of the chosen area with a stone beside it, or none |
| Target.IsCandidate | main/solver.cpp:705-715 | the cell is in the chosen area and has a stone beside it |
| Target.StoneBeside | main/solver.cpp:706-714 | some on-board 4-neighbour holds a stone |
| BackCalc.WindowOffset | main/solver.cpp:343-344 | scan position w is a window offset whose position is w |
| BackCalc.WindowIndexOrder | main/solver.cpp:343-344 | the sy/sx loop order is raster order on window offsets |
| BackCalc.WindowScanShape | main/solver.cpp:343-353 | the gathered offsets are already strictly ascending, so the std::sort leaves them unchanged; they are exactly the window offsets holding the same id |
| BackCalc.MatchFrom | main/solver.cpp:355-361 | the first orientation with exactly this offset list, or 8 when none matches |
| BackCalc.CollectStone | main/solver.cpp:342-352 | the gathered offsets are Collected, the scan's meaning |
| BackCalc.MatchOrientation | main/solver.cpp:355-361 | the loop over r finds MatchFrom |
| BackCalc.BackCalcPutList | main/solver.cpp:336-367 | the result is BackCalcSpec: one placement per used id at its first cell in raster order, None where the assert fails |
| BackCalc.CellPut | main/solver.cpp:340-362 | one cell keeps the scan state, or reports the assert failing exactly when the spec fails |
| BackCalc.BackCalcFromShape | main/solver.cpp:336-367 | recovered placements are stones of the tables in one of their orientations, anchored on the board |
| BackCalc.Replay | main/solver.cpp:848-856 | putting placements in order on a fresh board gives a consistent orientation-0 board laid out by them |
| BackCalc.ReplayStep | main/solver.cpp:853 | each put of the replay is allowed and adds exactly its cells |
| BackCalc.ReplayTiles | main/solver.cpp:848-856 | a replayed board is tiled by its placements |
| BackCalc.ReplayReproduces | main/solver.cpp:848-856 | a tiled board is reproduced by replaying its placements |
| BackCalc.FirstCellAnchor | main/solver.cpp:340 | on a tiled board, the scan's first cells of used ids are exactly the anchors |
| BackCalc.CollectedIsVec | main/solver.cpp:342-353 | at a placement's anchor the gathered offsets are its offset list |
| BackCalc.BackCalcRecovers | main/solver.cpp:336-367 | on a tiled board backCalcPutList succeeds, recovers every placement once (same stone, anchor and cells), in anchor order, and the result tiles the board |
| BackCalc.BackCalcRoundTrip | main/solver.cpp:336-367 | placements put on a fresh board, recovered, and put again give the same layers and used stones |
| BackCalc.AnswerOf | main/solver.cpp:438-441 | the answer entry keeps the stone index, and flip * 4 + rotate is the orientation |
| BackCalc.AnswerCovers | main/solver.cpp:438-441 | the entry's box corner plus the stone's cells in (flip, rotate) are exactly the cells the placement covers |
| BackCalc.AnswerListAppend | main/solver.cpp:438-442 | the entries of two lists of placements, joined, are the entries of the joined list: one entry per placement, in order |
| BackCalc.RecordAnswers | main/solver.cpp:438-442 | the loop appends exactly those entries to the builder |
| BackCalc.DefaultInput | main/solver.cpp:435-437 | a consistent state turned to orientation 0 is a valid input of backCalcPutList |
| BackCalc.ToAnswer | main/solver.cpp:432-445 | an answer exactly when the recovery of the state in orientation 0 succeeds; then it is sorted by stone index and is a permutation of the recovered entries |
| BackCalc.ReplayAnswers | main/solver.cpp:432-445 | on a board laid out from placements in orientation 0, transDefault changes nothing and toAnswer's recovery succeeds |
| BackCalc.BuildAnswer | main/solver.cpp:433-444 | recording and building give the entries sorted by stone index, as a permutation |
| Search.RulesOfCounted | main/solver.cpp:233-243 | for a board of byte cells, g.init's default_field[t] is default_field[0] seen in orientation t, and default_empty_count counts the zero cells of default_field[0] |
| Search.FreshSound | main/solver.cpp:786 | a fresh state is sound |
| Search.TransSound | main/solver.cpp:787 | trans keeps a state sound |
| Search.ChildSound | main/solver.cpp:730-732 | an available placement can be put; the child is sound, is not the first stone, has the new score, and fewer free cells |
| Search.Child | main/solver.cpp:730-732 | clone, addScore and put: a sound state with the score raised and free cells reduced by the stone size |
| Search.AddNext | main/solver.cpp:729-745 | the child joins the bucket of its free-cell count; best becomes a copy of it exactly when it has fewer free cells, or as many and fewer stones; no other live state changes |
| Search.ReplaceBest | main/solver.cpp:737-738 | best is freed and a new slot holds a copy of the state |
| Search.ExpandPut | main/solver.cpp:771-775 | calcSimpleScore's score; skipped when hash_map already holds a higher score, else the entry becomes this score and the child is made |
| Search.ExpandAt | main/solver.cpp:768-776 | expanding the placements at the target cell keeps the buckets arranged, only adds children below bucket k, and leaves best at least as good as each child |
| Search.SelectTop | main/solver.cpp:754-757 | a permutation with the n best-scored first, and the slot at n scoring at least every later one, as nth_element promises |
| Search.SplitTop | main/solver.cpp:754-761 | the slots split into n kept and the rest, each kept slot scoring at least every dropped one |
| Search.Trim | main/solver.cpp:753-762 | the bucket is cut to width slots that outrank the freed ones |
| Search.CutToWidth | main/solver.cpp:752-762 | the bucket keeps min(width, size) slots that outrank the dropped ones |
| Search.ExpandState | main/solver.cpp:765-777 | expansion of one state at its target cell; aborted exactly when getNextTargetPos's assert fails, and then nothing is made |
| Search.ExpandBack | main/solver.cpp:765-779 | the back state is expanded, then freed and popped, unless the expansion aborts |
| Search.ExpandBucket | main/solver.cpp:764-780 | the bucket's states are expanded from the back until it is empty or an expansion aborts |
| Search.SweepBucket | main/solver.cpp:748-781 | one outer turn: the cut, then every kept state expanded and freed; buckets above k untouched, best no worse, hash entries only grow |
| Search.Sweep | main/solver.cpp:747-782 | sweeping buckets from-1 down to 0 empties them, unless an expansion aborts |
| Search.BucketOf | main/solver.cpp:723-726 | the states of init with e free cells, in init's order |
| Search.FileAll | main/solver.cpp:723-727 | each initial state is pushed to the bucket of its free-cell count |
| Search.Distribute | main/solver.cpp:722-727 | the initial buckets are exactly BucketOf for each count |
| Search.BeamSearchAsWritten | main/solver.cpp:721-783 | as written, buckets 1022 down to 0 are swept; the initial states with 1023 free cells stay live beside best |
| Search.BeamSearch | main/solver.cpp:721-783 | with every bucket swept, unless an expansion aborts, only best and the caller's slots stay live |
| Search.FirstCell | main/solver.cpp:788-791 | the first cell in raster order with a non-empty available list, and that list |
| Search.ListAvailable | main/solver.cpp:790 | every placement of that list is available |
| Search.KidsOf | main/solver.cpp:792-797 | for each placement, its calcSimpleScore and the child of clone, addScore and put |
| Search.StoreAll | main/solver.cpp:793-796 | one new slot per child, holding it, and no other live slot changes |
| Search.FirstChildren | main/solver.cpp:786-797 | a fresh state turned to t, its first cell with placements, and their children |
| Search.FirstPut | main/solver.cpp:785-804 | one new slot per placement at the first cell, holding its child; the turned state goes back to the pool |
| Search.TurnedFresh | main/solver.cpp:786-787 | a fresh state turned to t is sound and has all free cells of the board |
| Search.OneCellKid | main/solver.cpp:785-804 | on an obstacle-free board a one-cell stone put by firstPut leaves 1023 free cells |
| Search.StrandedSlot | main/solver.cpp:747 | an initial state with 1023 free cells is still live after beamSearch as written |
| Common.NatToString | include/common.hpp:169-170 | decimal digits without a leading zero |
| Common.IntToString | include/common.hpp:169-170 | a non-empty decimal form with a minus sign exactly for negatives |
| Common.ParseNatToString | include/common.hpp:106-107 | reading back the decimal form of a number gives the number |
| Common.Parse | include/common.hpp:56-83 | the outcome is ParseSpec, and a parsed result always names a problem file |
| Common.ParseExtraPairs | include/common.hpp:73-76 | after `-ex` each key/value pair is inserted in order, a later key overwriting |
| Common.ParseArgsRoundTrip | include/common.hpp:56-83 | parsing a complete command line recovers the options it was written from |
| Common.ParseHelp | include/common.hpp:62-65 | `-h` or `--help` exits with code 0 before anything else |
| Common.ParseNoProblemFile | include/common.hpp:78-81 | without `-i` the parser exits with code 1 |
| Common.Read | include/common.hpp:96-119 | a 32x32 board and n 8x8 stones, each cell 1 exactly when its character is '1' |
| Common.InsertByStoneIndex | include/common.hpp:146-149 | insertion keeps the list sorted by stone index and adds exactly the entry |
| Common.SortByStoneIndex | include/common.hpp:146-149 | std::sort by stone index: sorted, and a permutation |
| Common.SolverAnswerBuilder.constructor | include/common.hpp:134-135 | stone_max is the number of stones, and the list is empty |
| Common.SolverAnswerBuilder.Put | include/common.hpp:137-143 | the entry is appended |
| Common.SolverAnswerBuilder.Build | include/common.hpp:145-151 | the entries sorted by stone index, as a permutation of those recorded |
| Common.Line | include/common.hpp:169-170 | every answer line ends in CRLF |
| Common.Write | include/common.hpp:163-175 | one CRLF-terminated line per stone; with strictly increasing indices, stone i gets its entry's line or an empty line |

## Left out

- Common.Read: ProblemTokens requires at least 33 + 8n tokens, board rows of at least 32 characters, stone rows of at least 8, and a count of plain digits. Not modelled:
  - short rows, where `s[x]` reads past the end of the string (common.hpp:103 and 114);
  - a truncated stream, where `is >> s` keeps the previous token and `n` reads 0;
  - a signed count such as "+3", which `is >> n` accepts;
  - a negative count, which makes the vector constructor throw (common.hpp:108-109).
- Common.Read: `ProblemReader::read(file)` and `SolverAnswerWriter::write(file)` open files; that I/O is not modelled.
- Search.Recorded treats hash 0 as an ordinary key. In solver.cpp, `set_empty_key(0)` (line 654) makes `hash_map[0]` at line 773 a precondition violation of dense_hash_map, whose behaviour there is not modelled.
- Search.SmallStones is required by every search member through SearchEnv. It excludes problems with a stone of more than 16 cells. On those, `put` and `preHash` would fail FieldHash::get's assert (solver.cpp:167).
- Search.FieldCounted is also required through SearchEnv. RulesOfCounted proves it for the tables g.init builds when every board cell is a byte.
- Patterns.WellShaped excludes more than 256 stones. Stone ids are `uint8_t` and `used_` is a `bitset<256>`, so larger problems would wrap ids.
- States.GameState.PutStone and States.GameState.Undo require PutReady and UndoReady. These are the asserts of put and undo (solver.cpp:507-517, 525-535), so the failing-assert path is not modelled.
- States.GameState.TransRotate requires the target to be an orientation, which trans asserts (solver.cpp:611). A negative r can give a negative target; see RotateTargetNegative for how the half can be left.
- Common.SolverAnswerBuilder.Put requires the bounds that put asserts (common.hpp:138-141).
- Common.Parse: the MissingValue outcome stands for an option without its value. There `argv[++i]` is the terminating null pointer, and building a std::string from it is undefined; what happens next is not modelled.
- Target.GetNextTargetPos: AssertFails stands for `assert(false)` (solver.cpp:718). Without assertions the function would fall off its end, which is undefined and not modelled. The search then stops: ExpandState and the sweeps report `aborted`.
- States.PutShape restricts a Put to a byte id and signed-byte coordinates. The truncation of wider values into `u_char`/`char` is not modelled. Geometry.Add and Geometry.Sub likewise do not model `char` wrap-around; the coordinates used stay within -16..47.
- States.GameState.AddScore: the score (`int`) and the hash_map values are unbounded integers, so 32-bit overflow is not modelled. Cell ids are bounded by `Consistent` (below 256) rather than truncated.
- BackCalc.ToAnswer: it is not proved that a state the search reaches is tiled by placements. Such a state is built in orientation t and then turned back by transDefault. So `answer.Some?` (the `assert(found)` of solver.cpp:362) is proved only for boards replayed in orientation 0 (ReplayAnswers, BackCalcRoundTrip), and the replay at solver.cpp:845-856 is covered only for such boards.
- Common.Write characterises the lines only when the answer's stone indices strictly increase. For other lists it states the line count and the CRLF endings only.
- BackCalc.CollectStone does not perform the std::sort of solver.cpp:353. WindowScanShape proves that the gathered list is already strictly ascending, so the sort would leave it unchanged.
- Search.SelectTop computes one permutation with nth_element's guarantees. nth_element's exact permutation is unspecified, so the order in which the dropped states are freed may differ.
- Search.ExpandState handles the target list as "empty or one cell", which getNextTargetPos guarantees, instead of looping over it.
- Search.BeamSearch takes a `nat` width; a negative `beam_width` is not modelled.
- Search.FirstPut computes the turned state, its list and the children on values first, then allocates one slot per child. Slots are allocated and freed in the same order as in solver.cpp.
- FieldHash.HashToggle and the hash lemmas take the random table as a parameter: the contents of `std::mt19937`'s output (solver.cpp:155-162) are not modelled.
- `solve`, `run` and `main` (solver.cpp:653-658, 806-888) are not modelled: the eight runs of firstPut and beamSearch over the orientations, `last_output_hash`, the file names, and the `-ex w` weight (the rules fix weight_diff_id at 5, solver.cpp:223). Also left out:
  - the gv visualisation calls and `cerr` logging;
  - `total_complete_count` and `shrink_to_fit`;
  - `hash_map.clear_no_resize`;
  - the `DEBUG_MEMORY_CHECK` counters beyond Pool.CountersAgree.
- Pool.StatePool.Alloc models `malloc`'d chunks as fresh slot numbers. Raw memory and the pointers into it are not modelled.

## Findings

| source | as written | input that shows it | evidently intended | confidence | as-written member | corrected member |
|---|---|---|---|---|---|---|
| main/solver.cpp:747 | `for (int k = 1023; k--;)` tests k, then decrements, so it sweeps buckets 1022 down to 0 and never bucket 1023 | an obstacle-free board with a one-cell stone: firstPut's child has 1023 free cells (OneCellKid), is never expanded or freed, and stays live beside best (StrandedSlot); the memory check at solver.cpp:863 then fails | every bucket from 1023 down to 0 is swept, so every initial state is expanded and freed | not executed | Search.BeamSearchAsWritten | Search.BeamSearch |
