# Eight-tile puzzle solver — a Dafny model

The repository solves the 3x3 sliding-tile puzzle. A starting board is read
from a file of nine characters (`1`..`8` and a space for the blank; line
breaks skipped). It is stored as the root of a linked list of boards, each
remembering the index of the board it was produced from. The list is then
grown by expanding boards one after another. An expansion moves every tile
next to the blank into the blank, in row-major order of the tiles and in the
order north, east, south, west. There are two programs:

* the basic program (`basic/eighttile.c`) does a breadth-first search: a new
  board is appended to the back of the queue unless it is already stored, and
  the search stops as soon as an appended board is the solved layout
  `12345678 `;
* the extended program (`extension/manhattan_eighttile.c`) inserts each new
  board at a place computed from its priority (moves so far plus the
  Manhattan distance of every tile from its goal cell): `determine_place`
  compares that priority with the boards ahead of it. It stops when the
  board it expanded last is the goal. Its display part walks the parent
  links back from the solution, lists the boards from start to goal, and
  lays a board out on a 37x37 character display.

The model has five modules:

* `Board` — the grid, the goal, the bounds checks, `make_move`, the order of
  successors (with a reference definition: one successor per neighbour of
  the blank, ascending), the C remainder, and reachability.
* `FileOperations` — reading and validating the starting board. The file is
  a `seq<char>`; the counter array and the board buffer are `array`s.
* `EightTile` — the basic search. It is a class `Search` whose store
  (`seq<State>`), tail index, cursor and solution flag are fields that the
  methods update in place. Each method is tied by `Snapshot()` to a value
  function (`AddChild`, `AddAll`) about which the properties are proved:
  every stored board is one move from its parent's, and the store stays in
  breadth-first order, so a solution found is a shortest one.
* `ManhattanEightTile` — the heuristic and the priority search. It is a class
  `PrioritySearch` with the value functions `Offer`, `OfferAll`,
  `OfferDirections` and `OfferTiles`. The heuristic is proved admissible
  and consistent; every stored board is one move from its parent's, with
  its priority and moves computed from its parent's.
* `ManhattanDisplay` — `sort_print_array`, `record_of_solution`, the
  non-terminal part of `display_solution` (the listing is a legal sequence
  of moves from the start), `determine_tile_position` and `make_array_big`.

Following `next` k times from the head (`pointer_chase`) is indexing the
store at k.

## Model

| member | source | states |
|---|---|---|
| Board.SymbolRoundTrip | basic/file_operations.h:32-48 | the counter slot of a symbol and the symbol of a slot are inverse: the blank is slot 0, tile `k` is slot k |
| Board.CRem | basic/eighttile.c:57-60 | C's truncating `%` by 3 lies strictly between -3 and 3, is zero exactly when the Euclidean remainder is, and agrees with it on non-negative operands |
| Board.MoveLegality | basic/eighttile.c:57-60 | on the board, north is possible exactly outside the top row, east outside the right column, south outside the bottom row, west outside the left column |
| Board.MovesStayOnBoard | basic/eighttile.c:57-66 | a move the bounds checks allow stays on the board, reaches an orthogonal neighbour, and an east or west move stays in its row |
| Board.SearchDirections | basic/eighttile.c:262-282 | four entries, each the move for its direction or 0; every entry keeps the tile on the board and every non-zero entry reaches a neighbour |
| Board.SearchDirectionsExact | basic/eighttile.c:262-282 | a cell is adjacent to the tile if and only if it differs from it and its displacement is among the directions offered |
| Board.MakeMove | basic/eighttile.c:344-365 | succeeds exactly for the four move displacements, otherwise fails with the move error; on success the tile lands on the target cell, its old cell becomes blank, no other cell changes, and a tile moved onto the blank of a permutation gives a permutation |
| Board.SlidePreservesPermutation | basic/eighttile.c:344-365 | moving a tile onto the blank keeps exactly one blank and one of each tile |
| Board.ChildrenSpec | basic/eighttile.c:237-309 | one expansion produces exactly one successor per tile next to the blank, ordered by that tile's cell; in each, the tile has moved into the blank, its own cell is blank, nothing else changed, and the board is a permutation |
| Board.ChildAt | basic/eighttile.c:237-309 | the i-th successor is the i-th neighbour of the blank moved into it, with its cells described exactly |
| Board.ChildMove | basic/eighttile.c:285-309 | every successor of a valid board comes from one tile next to the blank sliding into it: the blank's cell takes the tile, the tile's cell becomes blank, and no other cell changes |
| Board.NeighbourCount | basic/eighttile.c:262-282 | a blank in a corner yields two successors, on an edge three, in the centre four |
| Board.ChildrenArePermutations | basic/eighttile.c:237-309 | every successor of a valid board is a valid board |
| Board.ChildrenDistinct | basic/eighttile.c:237-309 | no successor equals its parent and no two successors of one board are equal |
| Board.GoalIsLastChild | basic/eighttile.c:237-309 | when a successor is the goal, it is the last successor generated |
| Board.ReachableFound | basic/eighttile.c:185-216 | a set of boards closed under moves contains every board reachable from its members in any number of moves |
| Board.ReachableSnoc | basic/eighttile.c:237-309 | a board reachable in n moves followed by one of its successors is reachable in n + 1 moves |
| Board.ReachableLast | basic/eighttile.c:237-309 | a board reachable in n > 0 moves is a successor of some board reachable in n - 1 moves |
| FileOperations.Accepted | basic/file_operations.h:84-96 | the kept characters are the file's characters in order with the line breaks removed; none is a line break and there are no more than in the file |
| FileOperations.AcceptedAppend | basic/file_operations.h:84-96 | reading two parts of a file one after the other keeps what reading the whole file keeps |
| FileOperations.IgnoredCharsSkipped | basic/file_operations.h:28-29 | inserting a newline or carriage return anywhere in the file does not change the board read |
| FileOperations.TalliedCounts | basic/file_operations.h:104-127 | after counting, counter slot k holds the number of occurrences of slot k's symbol |
| FileOperations.CharactersFromFileCount | basic/file_operations.h:104-127 | accepts exactly the blank and the tiles `1`..`8`, and then adds one to that symbol's counter only |
| FileOperations.ForeignRejected | basic/file_operations.h:104-127 | a kept character that is neither blank nor tile makes the file invalid, and the first such one is what the reader stops at |
| FileOperations.CheckStartingBoard | basic/file_operations.h:130-144 | succeeds if and only if all nine counters are exactly 1 |
| FileOperations.CountsMeanPermutation | basic/file_operations.h:130-144 | for a file of symbols, every counter being 1 is the same as holding one blank and one of each tile |
| FileOperations.Verdict | basic/file_operations.h:130-144 | with the board cells and counters as the read loop leaves them, the count check passes exactly when the kept characters are a permutation, and then the board holds them |
| FileOperations.FillFirstBoard | basic/file_operations.h:84-96 | the read loop stops at a foreign character if and only if there is one; otherwise the cells hold the kept characters and the counters their counts |
| FileOperations.KeepCharacter | basic/file_operations.h:87-95 | a kept character is accepted exactly when it is the blank or a tile; a foreign one leaves the counters and the board as they were; an accepted one leaves the counters tallying the kept characters with it and the board holding them |
| FileOperations.CheckFileAndFillFirstBoard | basic/file_operations.h:76-101 | succeeds if and only if the kept characters are one blank and one of each tile, and then the board is those characters; a foreign character gives the content error and any other failure the duplicate-or-missing error, including every length other than nine |
| EightTile.MatchesFound | basic/eighttile.c:399-416 | the count of matches among the first n boards is positive exactly when the board is among them |
| EightTile.TestAgainst | basic/eighttile.c:399-416 | returns the number of the first upperBound stored boards equal to the board given, positive exactly when one is |
| EightTile.CheckIfBoard | basic/eighttile.c:368-394 | `'s'` answers whether the board is the goal, `'e'` whether it is among the first `place` stored boards, any other choice is the check error |
| EightTile.AddAllPrefix | basic/eighttile.c:312-341 | offering candidates never moves or changes a stored board |
| EightTile.AddAllStored | basic/eighttile.c:312-341 | after the offers, every candidate is in the store |
| EightTile.AddAllNoGoal | basic/eighttile.c:312-341 | offering boards none of which is the goal raises no solution flag and stores no goal |
| EightTile.AddAllSoln | basic/eighttile.c:312-341 | when only the last candidate can be the goal, the flag after the offers is raised exactly when a goal was appended |
| EightTile.AddAllGoalRoot | basic/eighttile.c:312-341 | with the goal as the starting board, the goal is never appended, since it is already stored |
| EightTile.AppendDuplicates | basic/eighttile.c:312-341 | appending a board equal to none before the tail lets no duplicate through except a copy of the tail |
| EightTile.AppendMoves | basic/eighttile.c:312-341 | appending a successor of a stored board, with that board's index as parent, keeps every parent before its child and every board one move from its parent's |
| EightTile.AddChildWellformed | basic/eighttile.c:312-341 | one offer of a successor of a stored board keeps the store's invariant: root first, parents earlier and one move away, boards valid, duplicates only adjacent, the flag only with the goal at the tail |
| EightTile.AddAllWellformed | basic/eighttile.c:312-341 | offering successors of a stored board on its behalf keeps that invariant, so every stored board is one move from its parent's |
| EightTile.AddAllGoalAtTail | basic/eighttile.c:312-341 | when only the last candidate can be the goal and the root is not, a raised flag means the goal is the tail and stored nowhere else |
| EightTile.Expansion | basic/eighttile.c:237-259 | one expansion of the board at the cursor keeps the store's invariant, stores every successor of the boards expanded so far, and raises the flag exactly when the goal was appended |
| EightTile.DepthPrefix | basic/eighttile.c:312-341 | a board's number of moves from the root along the parent links does not change as the store grows |
| EightTile.DepthMonotone | basic/eighttile.c:312-341 | in a breadth-first store a later board is never fewer moves from the root than an earlier one |
| EightTile.AppendLayered | basic/eighttile.c:312-341 | appending at the back a successor of the board being expanded keeps the store breadth-first, and the new tail is one move deeper than that board |
| EightTile.AddAllLayered | basic/eighttile.c:237-259 | the offers of one expansion keep the store breadth-first with the tail at most one move deeper than the expanded board |
| EightTile.StoredWithinGrows | basic/eighttile.c:312-341 | a board stored within d moves of the root stays so as the store grows |
| EightTile.StoredBelowTail | basic/eighttile.c:312-341 | in a breadth-first store every stored board is no deeper than the tail |
| EightTile.ClosedNearGrows | basic/eighttile.c:237-259 | after an expansion every successor of each expanded board is stored at most one move deeper than it |
| EightTile.ExpansionLayered | basic/eighttile.c:237-259 | one expansion keeps the store breadth-first and closed one move deep over the expanded boards |
| EightTile.PathReachable | basic/eighttile.c:312-341 | the parent links back from a stored board are a path of moves from the start exactly as long as its depth |
| EightTile.ReachedWithin | basic/eighttile.c:185-216 | every board reachable from the start in m moves, m no more than the depth of the last expanded board, is stored at most m moves deep |
| EightTile.StoredChildWithin | basic/eighttile.c:237-259 | a successor of a board stored within d moves of the start, d below the depth of the last expanded board, is stored within d + 1 moves |
| EightTile.ShortestFound | basic/eighttile.c:184-216 | when the goal is stored only at the tail of a breadth-first store, no path from the start reaches the goal in fewer moves than the tail's depth |
| EightTile.ShortestAtTail | basic/eighttile.c:184-216 | in a breadth-first store closed one move deep whose goal is at the tail only, the tail's depth is the fewest moves from the start to the goal |
| EightTile.ExploredStart | basic/eighttile.c:185-198 | the store holding only the start, with the flag down, satisfies the search's loop invariant with nothing expanded |
| EightTile.ExploredStep | basic/eighttile.c:200-205 | expanding the board at the cursor keeps the stored boards and the loop invariant with one more board expanded |
| EightTile.SolvedOptimal | basic/eighttile.c:184-216 | with the flag up, the goal is the tail, its parent links are a path from the start as long as its depth, and no shorter path reaches the goal |
| EightTile.ExhaustedUnsolvable | basic/eighttile.c:207-212 | with every board expanded and the flag down, no goal was appended, and from a start that is not the goal the goal is unreachable |
| EightTile.UnsolvableSound | basic/eighttile.c:205-212 | when every stored board has been expanded and none after the root is the goal, the goal cannot be reached from the start in any number of moves |
| EightTile.Search.constructor | basic/eighttile.c:115-121 | the queue holds only the starting board, as root, with the tail and cursor at zero and no solution |
| EightTile.Search.CreateNextBoard | basic/eighttile.c:312-341 | an invalid direction is the move error and changes nothing; otherwise the moved board is offered: appended with the cursor as parent unless already stored, the flag set when it is the goal |
| EightTile.Search.SearchPossibleDirections | basic/eighttile.c:285-309 | offers, in the order N, E, S, W, the moves of the tile that land on the blank |
| EightTile.Search.DefineOptionsAndExplore | basic/eighttile.c:237-259 | offers exactly the successors of the board, in generation order |
| EightTile.Search.FindOptimalSolution | basic/eighttile.c:184-216 | ends Solved only when the last board appended is the goal, and then its parent links are a path of moves from the start and no path reaches the goal in fewer moves; Unsolvable only when every stored board was expanded, and then, from a start that is not the goal, the goal is unreachable; a goal start is never Solved |
| ManhattanEightTile.CorrectTilePosition | extension/manhattan_eighttile.c:477-494 | succeeds exactly for the tiles `1`..`8`, with the row and column the tile has on the goal board |
| ManhattanEightTile.ZeroDistanceCell | extension/manhattan_eighttile.c:447-494 | a cell adds nothing to the distance exactly when it holds the blank or its goal tile |
| ManhattanEightTile.ManhattanCells | extension/manhattan_eighttile.c:447-474 | the priority is the moves plus the nine cell distances, row by row |
| ManhattanEightTile.GoalDistanceZero | extension/manhattan_eighttile.c:447-474 | the goal board has priority equal to its moves |
| ManhattanEightTile.ZeroDistanceIsGoal | extension/manhattan_eighttile.c:447-474 | a valid board with no distance is the goal |
| ManhattanEightTile.ManhattanZeroAtGoal | extension/manhattan_eighttile.c:447-474 | on a valid board the priority is at least the moves, and equal to them if and only if the board is the goal |
| ManhattanEightTile.DistanceCells | extension/manhattan_eighttile.c:447-474 | the heuristic part of the priority is the sum of the distances of the nine cells |
| ManhattanEightTile.DistanceBelowTwoCells | extension/manhattan_eighttile.c:447-474 | two boards that agree outside two cells differ in distance only by those two cells |
| ManhattanEightTile.TileStep | extension/manhattan_eighttile.c:447-494 | a tile one cell further along a row or column is exactly one step nearer to or further from its goal cell |
| ManhattanEightTile.SlideDistance | extension/manhattan_eighttile.c:447-474 | sliding a tile into the blank changes the Manhattan distance by exactly one |
| ManhattanEightTile.ManhattanConsistent | extension/manhattan_eighttile.c:447-474 | the heuristic is consistent: a move changes the distance by exactly one, so the priority never drops from a board to a successor with one more move |
| ManhattanEightTile.ManhattanAdmissible | extension/manhattan_eighttile.c:447-474 | the heuristic is admissible: from a board n moves from the goal, the priority is at most the moves made plus n |
| ManhattanEightTile.ManhattanFunction | extension/manhattan_eighttile.c:447-474 | fails with the tile error exactly when some cell is neither blank nor tile, otherwise returns moves plus the Manhattan distance |
| ManhattanEightTile.SmallerAll | extension/manhattan_eighttile.c:497-518 | every board from the cursor on is counted exactly when every one has a priority below the candidate's |
| ManhattanEightTile.DeterminePlace | extension/manhattan_eighttile.c:497-518 | the place is one past the cursor plus the number of boards from the cursor on whose priority is strictly below the candidate's, so it lies between cursor + 1 and one past the end |
| ManhattanEightTile.PlaceAtTail | extension/manhattan_eighttile.c:405 | the candidate goes to the back exactly when every board from the cursor on has a lower priority |
| ManhattanEightTile.ExpandedBoardCounted | extension/manhattan_eighttile.c:497-518 | the expanded board itself is counted, so a candidate with a higher priority than it never lands right after it |
| ManhattanEightTile.PlaceOvershoot | extension/manhattan_eighttile.c:497-518 | with priorities 5, 20, 30 and the cursor on the first, a candidate of priority 10 goes to place 2, after the board of priority 20 |
| ManhattanEightTile.MatchesFound | extension/manhattan_eighttile.c:259-276 | the count of matches among the first n boards is positive exactly when the board is among them |
| ManhattanEightTile.TestAgainst | extension/manhattan_eighttile.c:259-276 | returns the number of the first upperBound stored boards equal to the board given, positive exactly when one is |
| ManhattanEightTile.CheckIfBoard | extension/manhattan_eighttile.c:228-254 | `'s'` answers whether the board is the goal, `'e'` whether it is among the first `place` stored boards, any other choice is the check error |
| ManhattanEightTile.OfferShape | extension/manhattan_eighttile.c:371-420 | a board already among the first `total` is dropped; otherwise it is inserted at its place, or at the back when the place is one past the end, every board before that position is unchanged and every later one moves up by one |
| ManhattanEightTile.OfferOutOfOrder | extension/manhattan_eighttile.c:371-420 | with priorities 5, 20, 30 and the cursor on the first, a new board of priority 10 is spliced in after the board of priority 20, which is then expanded before it |
| ManhattanEightTile.OfferAllPrefix | extension/manhattan_eighttile.c:371-420 | offers never move the boards up to and including the cursor |
| ManhattanEightTile.OfferAllStores | extension/manhattan_eighttile.c:371-420 | after the offers every board stored before is still stored and every candidate is stored |
| ManhattanEightTile.OfferWellformed | extension/manhattan_eighttile.c:371-420 | an offer of a successor of the board at the cursor keeps the store's length at total + 1, the root first, parents among the expanded boards and earlier than their child, every board one move from its parent's, and every board valid |
| ManhattanEightTile.OfferBookkept | extension/manhattan_eighttile.c:371-420 | an offer made with the priority and moves computed from the board at the cursor keeps every node's priority equal to the Manhattan function of its board with its parent's moves plus one, and any recorded moves equal to its parent's plus one |
| ManhattanEightTile.OfferAllWellformed | extension/manhattan_eighttile.c:371-420 | offering successors of the board at the cursor keeps that invariant |
| ManhattanEightTile.OfferAllBookkept | extension/manhattan_eighttile.c:297-319 | the offers of one expansion keep that bookkeeping |
| ManhattanEightTile.OfferDirectionsAll | extension/manhattan_eighttile.c:345-368 | offering the four directions of a tile one by one is offering that tile's successors |
| ManhattanEightTile.OfferTilesAll | extension/manhattan_eighttile.c:297-319 | offering tile by tile is offering the successors from those tiles, in generation order |
| ManhattanEightTile.ClosedAfterExpansion | extension/manhattan_eighttile.c:297-319 | after expanding the board at the cursor, every successor of every board up to the cursor is stored |
| ManhattanEightTile.Expansion | extension/manhattan_eighttile.c:297-319 | one expansion keeps the boards up to the cursor, keeps the invariant with one more board expanded, stores every successor of the expanded boards, and keeps the bookkeeping |
| ManhattanEightTile.ExhaustedSound | extension/manhattan_eighttile.c:208-225 | when every stored board was expanded and none is the goal, the goal cannot be reached from the start in any number of moves |
| ManhattanEightTile.PrioritySearch.constructor | extension/manhattan_eighttile.c:131-137 | the queue holds only the starting board, as root with 0 moves, and nothing is counted or expanded |
| ManhattanEightTile.PrioritySearch.Insert | extension/manhattan_eighttile.c:521-549 | the new board, carrying its moves, is spliced in at `place`; every other board keeps its order |
| ManhattanEightTile.PrioritySearch.Place | extension/manhattan_eighttile.c:400-417 | a board not yet counted is placed by priority as `Offer` describes, at the back with its moves unset or inserted with them |
| ManhattanEightTile.PrioritySearch.CreateNextBoard | extension/manhattan_eighttile.c:371-420 | an invalid direction is the move error and changes nothing; otherwise the moved board is offered with the parent's moves plus one and its priority |
| ManhattanEightTile.PrioritySearch.SearchPossibleDirections | extension/manhattan_eighttile.c:345-368 | offers, in the order N, E, S, W, the moves of the tile that land on the blank |
| ManhattanEightTile.PrioritySearch.TryDirection | extension/manhattan_eighttile.c:353-365 | one pass of the direction loop: the move in direction i is offered exactly when it lands on the blank, so the store afterwards is the offers of directions 0..i, and the cursor does not move |
| ManhattanEightTile.PrioritySearch.DefineOptionsAndExplore | extension/manhattan_eighttile.c:297-319 | offers every successor of the board at the cursor, keeping the boards up to it, the invariant, the bookkeeping, and closure of the expanded boards |
| ManhattanEightTile.PrioritySearch.ExpandCursor | extension/manhattan_eighttile.c:218-221 | one turn of the search loop: the board at the cursor is expanded and the cursor moves past it; the boards up to it stay, every successor of it is offered, and the invariant, closure and bookkeeping are kept |
| ManhattanEightTile.PrioritySearch.FindOptimalSolution | extension/manhattan_eighttile.c:208-225 | a goal start is Solved at once with nothing expanded; Solved means the board expanded last (the start when none was) is the goal and no earlier one is; running past the end means the goal is unreachable from the start; the store keeps its invariant and bookkeeping throughout |
| ManhattanDisplay.WellformedDescends | extension/manhattan_display_operations.h:133-160 | in the search's store every parent link leads to an earlier board or marks the root, so the walk back ends |
| ManhattanDisplay.PathFrom | extension/manhattan_display_operations.h:133-160 | the walk starts at the given place, each entry is the parent of the board the previous one leads to, entries strictly decrease, and the last leads to a board whose parent is the root mark |
| ManhattanDisplay.PathEndsAtStart | extension/manhattan_display_operations.h:133-160 | in the search's store the walk back from any board ends at the starting board |
| ManhattanDisplay.SortPrintArray | extension/manhattan_display_operations.h:133-160 | writes the walk from the solution's place counter - 1 into the buffer, returns its length, and leaves the rest of the buffer unchanged |
| ManhattanDisplay.RecordOfSolution | extension/manhattan_display_operations.h:163-196 | lists the boards from the last recorded entry down to the first, numbered from 0, and reports one move fewer than boards listed |
| ManhattanDisplay.PathMoves | extension/manhattan_display_operations.h:133-160 | in the search's store each board on the walk back is a successor of the board the next entry leads to |
| ManhattanDisplay.SolutionListing | extension/manhattan_display_operations.h:105-130 | the walk back starts at the board the search tested last, ends at the starting board, and each board on it is one move from the next |
| ManhattanDisplay.DisplaySolution | extension/manhattan_display_operations.h:105-130 | the listing begins at the starting board, ends at the board tested last, numbers the boards from 0, puts each board one move after the one before, and reports one move fewer than boards |
| ManhattanDisplay.ListingFollowsPath | extension/manhattan_display_operations.h:163-196 | listing the boards of a walk back in reverse order gives a sequence of moves from the walk's last board to its first |
| ManhattanDisplay.Thirds | extension/manhattan_display_operations.h:66 | each row or column of tiles starts after the side gap and ends at least a side gap before the display's edge |
| ManhattanDisplay.Third | extension/manhattan_display_operations.h:67-68 | the top and bottom thirds classify each board cell into its row |
| ManhattanDisplay.DetermineTilePosition | extension/manhattan_display_operations.h:300-329 | for a board cell, the block's top-left corner is the start of its row and of its column of tiles |
| ManhattanDisplay.BlockInside | extension/manhattan_display_operations.h:58-66 | every tile's block lies inside the display |
| ManhattanDisplay.BlocksDisjoint | extension/manhattan_display_operations.h:58-66 | no display cell lies in two blocks |
| ManhattanDisplay.EnlargedLayout | extension/manhattan_display_operations.h:262-297 | each block shows its cell's glyph at its offset, and every display cell outside all blocks is the border |
| ManhattanDisplay.MakeArrayBig | extension/manhattan_display_operations.h:262-297 | fails exactly when a board cell is neither blank nor tile; otherwise the whole display is the layout above |
| ManhattanDisplay.PaintBlock | extension/manhattan_display_operations.h:289-293 | copying one tile's glyph fills its block and changes no other display cell |

## Left out

- File handling (`open_file`, `close_file`, `getc`), every `fprintf`/`printf`, `exit`, `atexit` and the argument-count check of `main`: the file is a `seq<char>` parameter and each fatal exit is an error value (`Failure`, `Some(error)`).
- The ncurses display (`define_colour_scheme`, `puzzle_introduction`, `solution_graphic`, `moving_display`, the rest of `display_solution`): terminal output only. `display_solution` is modelled by `DisplaySolution`.
- `determine_tile`: the glyph pictures are a function parameter (`glyph`). Its fatal default for a cell that is neither blank nor tile is modelled in `MakeArrayBig`.
- `solvable_board_check`: the extended `puzzle_from_file` calls it, but its source is not part of this model.
- `malloc`, `free_malloc_memory` and allocation failures: the store is a sequence.
- The file reader writes every kept character past the ninth beyond the end of the board buffer. The model writes nothing past the last cell. Such a file is rejected by the count check either way.
- EightTile.Search.FindOptimalSolution and ManhattanEightTile.PrioritySearch.FindOptimalSolution take an expansion budget (`fuel`) and may end `OutOfFuel`. The search ends because the board space is finite, and that is not proved.
- ManhattanEightTile.PrioritySearch: a board appended at the back never has its `moves` set in the source, and reading it reads uninitialised memory. The model stores `None` and reads a fixed caller-chosen value `unset` in its place.
- ManhattanEightTile.PrioritySearch.FindOptimalSolution: there is no end-of-queue test. When the cursor runs past the end, `pointer_chase` leaves `current` null and `define_options_and_explore` reads the board through it (extension/manhattan_eighttile.c:218-221, 306-310). The model stops with `CursorPastEnd` instead and proves that the goal is unreachable.
- ManhattanEightTile.PrioritySearch.FindOptimalSolution: no claim that the solution found is the shortest. `determine_place` counts the expanded board and compares strictly, so a board of lower priority can be queued behind one of higher priority (`OfferOutOfOrder`, `PlaceOvershoot`). Boards appended at the back keep unset moves, so their successors' priorities rest on an unknown value. The heuristic itself is proved admissible and consistent (`ManhattanAdmissible`, `ManhattanConsistent`).
- FileOperations: the file has no end-of-file marker; it ends where the `seq<char>` ends. The reader keeps `getc`'s result in a `char` and counts `EOF` among the ignored characters (basic/file_operations.h:28-29, 84). The model does not capture a byte that converts to the value of `EOF` ending the read early, nor a platform whose `char` never equals `EOF`, where the read loop would not end.
- ManhattanEightTile.PrioritySearch.CreateNextBoard requires every cell of the expanded board to be blank or tile, which every stored board is. The tile error of `manhattan_function` is modelled in `ManhattanFunction` itself.
- ManhattanEightTile.CellDistance counts a cell holding neither blank nor tile as 0. Only `ManhattanFunction`'s error path reaches such a board.
- ManhattanDisplay.DetermineTilePosition: the `default` branch of its switch cannot be reached, because the classification always yields one of the three thirds. C's truncating `%` is only tested for zero there, so it agrees with Dafny's.
- Behaviours of the code that the model keeps, though a reader might expect otherwise:
  - In the basic program, a starting board that is already the goal is never compared with the goal, and the goal is never appended again. The search therefore never ends `Solved` for it.
  - The extended program tests for the goal on the board it expanded last, not on the board it has just inserted.
  - `determine_place` counts boards with a strictly smaller priority, and it also counts the expanded board itself. The queue after the cursor is therefore not kept sorted.
  - In both programs the duplicate test looks at the first `total` boards only, which leaves out the last board in the list.
