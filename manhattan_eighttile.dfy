/** The priority search of the extended program. Each new board gets the
    priority "Manhattan distance plus moves" and is placed in the store after
    the cursor, ahead of the boards from the cursor on whose priority is
    strictly smaller, counted with one place to spare; a board that would go
    past the end is appended instead. The board just expanded is tested
    against the goal. The linked list becomes a sequence, and following
    `next` k times from the head becomes indexing at k. */
module ManhattanEightTile {
  import opened Board

  /** 9!, the number of arrangements of the board: the priority of the root. */
  const QMax: int := 362880

  /** A stored board, the index of its parent, the moves that reached it
      (never set on a board appended at the tail) and its priority. */
  datatype Node = Node(board: Board, parent: int, moves: Option<int>, manhattan: int)

  /** The store and the static count of boards added to it, as values. */
  datatype PQueue = PQueue(store: seq<Node>, total: int)

  datatype TileError = UnexpectedTile
  datatype CheckError = UnexpectedChoice
  datatype Outcome = Solved | CursorPastEnd | OutOfFuel

  /** The two kinds of check check_if_board performs. */
  const IsSolution: char := 's'
  const AlreadyExists: char := 'e'
  /** Only the board itself is compared with the goal. */
  const SolOnly: int := 1

  /** correct_tile_position: the row and column of a tile on the goal board;
      anything but '1'..'8' is fatal. */
  function CorrectTilePosition(tile: char): (r: Result<(int, int), TileError>)
    ensures r.Success? <==> '1' <= tile <= '8'
    ensures r.Success? ==> 0 <= r.value.0 < YS && 0 <= r.value.1 < XS && Goal[XS * r.value.0 + r.value.1] == tile
  {
    match tile
    case '1' => Success((0, 0))
    case '2' => Success((0, 1))
    case '3' => Success((0, 2))
    case '4' => Success((1, 0))
    case '5' => Success((1, 1))
    case '6' => Success((1, 2))
    case '7' => Success((2, 0))
    case '8' => Success((2, 1))
    case _ => Failure(UnexpectedTile)
  }

  /** Every cell holds the blank or a tile. */
  predicate AllSymbols(b: Board) {
    forall k :: 0 <= k < NumTiles ==> IsSymbol(b[k])
  }

  /** A permutation holds a symbol in every cell. */
  lemma PermutationSymbols(b: Board)
    requires IsPermutation(b)
    ensures AllSymbols(b)
  {
    PermutationFacts(b);
  }

  /** Sliding a tile keeps a symbol in every cell. */
  lemma SlideSymbols(b: Board, tile: int, d: int)
    requires AllSymbols(b) && 0 <= tile < NumTiles && 0 <= tile + d < NumTiles
    ensures AllSymbols(Slide(b, tile, d))
  {
  }

  /** How far the tile in row j, column i (cell XS * j + i) is from its goal
      cell; the blank, like any other non-tile, counts nothing. */
  function CellDistance(b: Board, j: int, i: int): nat
    requires 0 <= j < YS && 0 <= i < XS
  {
    match CorrectTilePosition(b[XS * j + i])
    case Success(pos) => Abs(pos.0 - j) + Abs(pos.1 - i)
    case Failure(_) => 0
  }

  /** The distances of the first n cells of row j. */
  function RowDistance(b: Board, j: int, n: int): nat
    requires 0 <= j < YS && 0 <= n <= XS
  {
    if n == 0 then 0 else RowDistance(b, j, n - 1) + CellDistance(b, j, n - 1)
  }

  /** The distances of the first m rows. */
  function RowsDistance(b: Board, m: int): nat
    requires 0 <= m <= YS
  {
    if m == 0 then 0 else RowsDistance(b, m - 1) + RowDistance(b, m - 1, XS)
  }

  /** The priority manhattan_function computes when every cell holds a
      symbol. */
  function Manhattan(b: Board, moves: int): int {
    RowsDistance(b, YS) + moves
  }

  /** A cell is at distance 0 exactly when it holds the blank or the tile
      the goal has there. */
  lemma ZeroDistanceCell(b: Board, j: int, i: int)
    requires 0 <= j < YS && 0 <= i < XS && IsSymbol(b[XS * j + i])
    ensures CellDistance(b, j, i) == 0 <==> b[XS * j + i] == Blank || b[XS * j + i] == Goal[XS * j + i]
  {
    var c := b[XS * j + i];
    if c != Blank && c == Goal[XS * j + i] {
      var pos := CorrectTilePosition(c).value;
      assert j == 0 || j == 1 || j == 2;
      assert i == 0 || i == 1 || i == 2;
      assert pos.0 == j && pos.1 == i;
    }
  }

  /** The priority is the moves plus the nine cell distances. */
  lemma ManhattanCells(b: Board, moves: int)
    ensures Manhattan(b, moves) == moves
      + CellDistance(b, 0, 0) + CellDistance(b, 0, 1) + CellDistance(b, 0, 2)
      + CellDistance(b, 1, 0) + CellDistance(b, 1, 1) + CellDistance(b, 1, 2)
      + CellDistance(b, 2, 0) + CellDistance(b, 2, 1) + CellDistance(b, 2, 2)
  {
    assert RowsDistance(b, 1) == RowDistance(b, 0, XS);
    assert RowsDistance(b, 2) == RowsDistance(b, 1) + RowDistance(b, 1, XS);
    forall j | 0 <= j < YS
      ensures RowDistance(b, j, XS) == CellDistance(b, j, 0) + CellDistance(b, j, 1) + CellDistance(b, j, 2)
    {
      assert RowDistance(b, j, 1) == CellDistance(b, j, 0);
      assert RowDistance(b, j, 2) == RowDistance(b, j, 1) + CellDistance(b, j, 1);
    }
  }

  /** Every cell of the goal board is at distance 0. */
  lemma GoalDistanceZero(moves: int)
    ensures Manhattan(Goal, moves) == moves
  {
    ManhattanCells(Goal, moves);
    GoalRowZero(0);
    GoalRowZero(1);
    GoalRowZero(2);
  }

  /** The cells of row j of the goal board are at distance 0. */
  lemma GoalRowZero(j: int)
    requires 0 <= j < YS
    ensures CellDistance(Goal, j, 0) == CellDistance(Goal, j, 1) == CellDistance(Goal, j, 2) == 0
  {
    ZeroDistanceCell(Goal, j, 0);
    ZeroDistanceCell(Goal, j, 1);
    ZeroDistanceCell(Goal, j, 2);
  }

  /** A permutation whose cells are all at distance 0 is the goal board. */
  lemma ZeroDistanceIsGoal(b: Board, moves: int)
    requires IsPermutation(b) && Manhattan(b, moves) == moves
    ensures b == Goal
  {
    PermutationFacts(b);
    ManhattanCells(b, moves);
    forall j, i | 0 <= j < YS && 0 <= i < XS
      ensures CellDistance(b, j, i) == 0 ==> b[XS * j + i] == Blank || b[XS * j + i] == Goal[XS * j + i]
    {
      ZeroDistanceCell(b, j, i);
    }
    forall k | 0 <= k < NumTiles
      ensures b[k] == Blank || b[k] == Goal[k]
    {
      var j, i := k / XS, k % XS;
      assert XS * j + i == k;
      assert CellDistance(b, j, i) == 0;
    }
    forall k | 0 <= k < 8
      ensures b[k] == Goal[k]
    {
      OnlyBlank(b, 8, k);
    }
  }

  /** The heuristic part is never negative, and it is zero exactly on the
      goal board. */
  lemma ManhattanZeroAtGoal(b: Board, moves: int)
    requires IsPermutation(b)
    ensures AllSymbols(b)
    ensures Manhattan(b, moves) >= moves
    ensures Manhattan(b, moves) == moves <==> b == Goal
  {
    PermutationFacts(b);
    if Manhattan(b, moves) == moves {
      ZeroDistanceIsGoal(b, moves);
    }
    if b == Goal {
      GoalDistanceZero(moves);
    }
  }

  /** How far the tile in cell k is from its goal cell. */
  function TileDistance(b: Board, k: int): nat
    requires 0 <= k < NumTiles
  {
    match CorrectTilePosition(b[k])
    case Success(pos) => Abs(pos.0 - Row(k)) + Abs(pos.1 - Col(k))
    case Failure(_) => 0
  }

  /** The distances of cells 0..n-1. */
  function DistanceBelow(b: Board, n: int): nat
    requires 0 <= n <= NumTiles
  {
    if n == 0 then 0 else DistanceBelow(b, n - 1) + TileDistance(b, n - 1)
  }

  /** The heuristic part is the distances of the nine cells. */
  lemma DistanceCells(b: Board)
    ensures Manhattan(b, 0) == DistanceBelow(b, NumTiles)
  {
    ManhattanCells(b, 0);
    assert TileDistance(b, 0) == CellDistance(b, 0, 0);
    assert TileDistance(b, 1) == CellDistance(b, 0, 1);
    assert TileDistance(b, 2) == CellDistance(b, 0, 2);
    assert TileDistance(b, 3) == CellDistance(b, 1, 0);
    assert TileDistance(b, 4) == CellDistance(b, 1, 1);
    assert TileDistance(b, 5) == CellDistance(b, 1, 2);
    assert TileDistance(b, 6) == CellDistance(b, 2, 0);
    assert TileDistance(b, 7) == CellDistance(b, 2, 1);
    assert TileDistance(b, 8) == CellDistance(b, 2, 2);
    assert DistanceBelow(b, 1) == CellDistance(b, 0, 0);
    assert DistanceBelow(b, 2) == DistanceBelow(b, 1) + CellDistance(b, 0, 1);
    assert DistanceBelow(b, 3) == DistanceBelow(b, 2) + CellDistance(b, 0, 2);
    assert DistanceBelow(b, 4) == DistanceBelow(b, 3) + CellDistance(b, 1, 0);
    assert DistanceBelow(b, 5) == DistanceBelow(b, 4) + CellDistance(b, 1, 1);
    assert DistanceBelow(b, 6) == DistanceBelow(b, 5) + CellDistance(b, 1, 2);
    assert DistanceBelow(b, 7) == DistanceBelow(b, 6) + CellDistance(b, 2, 0);
    assert DistanceBelow(b, 8) == DistanceBelow(b, 7) + CellDistance(b, 2, 1);
    assert DistanceBelow(b, 9) == DistanceBelow(b, 8) + CellDistance(b, 2, 2);
  }

  /** Boards that agree outside cells p and q have distances that differ
      only by those two cells. */
  lemma {:induction false} DistanceBelowTwoCells(b: Board, c: Board, p: int, q: int, n: int)
    requires 0 <= p < NumTiles && 0 <= q < NumTiles && p != q && 0 <= n <= NumTiles
    requires forall k :: 0 <= k < NumTiles && k != p && k != q ==> c[k] == b[k]
    ensures DistanceBelow(c, n) - DistanceBelow(b, n) ==
      (if p < n then TileDistance(c, p) - TileDistance(b, p) else 0) +
      (if q < n then TileDistance(c, q) - TileDistance(b, q) else 0)
  {
    if n > 0 {
      DistanceBelowTwoCells(b, c, p, q, n - 1);
      var k := n - 1;
      if k != p && k != q {
        SameCellDistance(b, c, k);
      }
    }
  }

  /** A cell holding the same symbol on two boards is as far from its goal. */
  lemma SameCellDistance(b: Board, c: Board, k: int)
    requires 0 <= k < NumTiles && c[k] == b[k]
    ensures TileDistance(c, k) == TileDistance(b, k)
  {
  }

  /** A tile one cell further along a row or column is one step nearer to,
      or further from, its goal cell. */
  lemma TileStep(b: Board, c: Board, p: int, q: int)
    requires 0 <= p < NumTiles && 0 <= q < NumTiles && Adjacent(q, p)
    requires c[p] == b[q] && '1' <= b[q] <= '8'
    ensures Abs(TileDistance(c, p) - TileDistance(b, q)) == 1
  {
    var pos := CorrectTilePosition(b[q]).value;
    TileDistanceAt(c, p, pos);
    TileDistanceAt(b, q, pos);
    CellStep(p, q, pos.0, pos.1);
  }

  /** The distance of a tile whose goal cell is pos. */
  lemma TileDistanceAt(b: Board, k: int, pos: (int, int))
    requires 0 <= k < NumTiles && CorrectTilePosition(b[k]) == Success(pos)
    ensures TileDistance(b, k) == Abs(pos.0 - Row(k)) + Abs(pos.1 - Col(k))
  {
  }

  /** Adjacent cells are at distances from any cell that differ by one. */
  lemma CellStep(p: int, q: int, j: int, i: int)
    requires Adjacent(q, p)
    ensures Abs(Abs(j - Row(p)) + Abs(i - Col(p)) - (Abs(j - Row(q)) + Abs(i - Col(q)))) == 1
  {
  }

  /** Sliding the tile at q into the blank at p changes the Manhattan
      distance by exactly one. */
  lemma SlideDistance(b: Board, c: Board, p: int, q: int)
    requires IsPermutation(b) && 0 <= p < NumTiles && 0 <= q < NumTiles && Adjacent(q, p)
    requires b[p] == Blank && c[p] == b[q] && c[q] == Blank
    requires forall k :: 0 <= k < NumTiles && k != p && k != q ==> c[k] == b[k]
    ensures Abs(Manhattan(c, 0) - Manhattan(b, 0)) == 1
  {
    OnlyBlank(b, p, q);
    PermutationFacts(b);
    assert IsSymbol(b[q]);
    DistanceCells(b);
    DistanceCells(c);
    DistanceBelowTwoCells(b, c, p, q, NumTiles);
    assert TileDistance(b, p) == 0 && TileDistance(c, q) == 0;
    TileStep(b, c, p, q);
  }

  /** Consistency of the heuristic: one move changes the Manhattan distance
      by exactly one, so the priority never drops along a move. */
  lemma ManhattanConsistent(b: Board, c: Board, moves: int)
    requires IsPermutation(b) && c in Children(b)
    ensures Abs(Manhattan(c, 0) - Manhattan(b, 0)) == 1
    ensures Manhattan(b, moves) <= Manhattan(c, moves + 1)
  {
    var p, q := ChildMove(b, c);
    SlideDistance(b, c, p, q);
  }

  /** Admissibility of the heuristic: a board from which the goal is n moves
      away is at Manhattan distance at most n, so the priority never exceeds
      the moves made plus the moves still needed. */
  lemma {:induction false} ManhattanAdmissible(b: Board, n: nat, moves: int)
    requires IsPermutation(b) && Reachable(b, Goal, n)
    ensures Manhattan(b, moves) <= moves + n
    decreases n
  {
    if n == 0 {
      GoalDistanceZero(moves);
    } else {
      var c :| c in Children(b) && Reachable(c, Goal, n - 1);
      ChildrenArePermutations(b);
      ManhattanAdmissible(c, n - 1, moves + 1);
      ManhattanConsistent(b, c, moves);
    }
  }

  /** The step of manhattan_function's inner loop: the cell's distance is
      nothing for the blank and the tile's row and column offsets otherwise. */
  lemma CellAdded(b: Board, j: int, i: int)
    requires 0 <= j < YS && 0 <= i < XS
    ensures RowDistance(b, j, i + 1) == RowDistance(b, j, i) + CellDistance(b, j, i)
    ensures b[XS * j + i] == Blank ==> CellDistance(b, j, i) == 0
    ensures var pos := CorrectTilePosition(b[XS * j + i]);
      pos.Success? ==> CellDistance(b, j, i) == Abs(pos.value.0 - j) + Abs(pos.value.1 - i)
  {
  }

  /** manhattan_function: the distances cell by cell in row-major order,
      then the moves; a cell holding neither the blank nor a tile is fatal. */
  method ManhattanFunction(board: Board, moves: int) returns (r: Result<int, TileError>)
    ensures r.Success? <==> AllSymbols(board)
    ensures r.Success? ==> r.value == Manhattan(board, moves)
  {
    var number := 0;
    var j := 0;
    while j < YS
      invariant 0 <= j <= YS
      invariant forall k :: 0 <= k < XS * j ==> IsSymbol(board[k])
      invariant number == RowsDistance(board, j)
    {
      var i := 0;
      while i < XS
        invariant 0 <= i <= XS
        invariant forall k :: 0 <= k < XS * j + i ==> IsSymbol(board[k])
        invariant number == RowsDistance(board, j) + RowDistance(board, j, i)
      {
        var c := board[XS * j + i];
        CellAdded(board, j, i);
        if c != Blank {
          var pos := CorrectTilePosition(c);
          if pos.Failure? {
            assert !IsSymbol(board[XS * j + i]);
            return Failure(pos.error);
          }
          number := number + Abs(pos.value.0 - j) + Abs(pos.value.1 - i);
        }
        i := i + 1;
      }
      j := j + 1;
    }
    number := number + moves;
    r := Success(number);
  }

  /** How many stored boards from index `from` on have a priority strictly
      below `priority`. */
  function Smaller(store: seq<Node>, priority: int, from: int): (n: nat)
    requires 0 <= from <= |store|
    ensures n <= |store| - from
    decreases |store| - from
  {
    if from == |store| then 0
    else (if store[from].manhattan < priority then 1 else 0) + Smaller(store, priority, from + 1)
  }

  /** All boards from `from` on count exactly when all their priorities are
      strictly below. */
  lemma {:induction false} SmallerAll(store: seq<Node>, priority: int, from: int)
    requires 0 <= from <= |store|
    ensures Smaller(store, priority, from) == |store| - from <==>
      forall k :: from <= k < |store| ==> store[k].manhattan < priority
    decreases |store| - from
  {
    if from < |store| {
      SmallerAll(store, priority, from + 1);
    }
  }

  /** determine_place: one past the cursor plus the boards from the cursor
      on, the expanded board included, with a strictly smaller priority. */
  method DeterminePlace(manNum: int, store: seq<Node>, counter: int) returns (place: int)
    requires 0 <= counter <= |store|
    ensures place == counter + 1 + Smaller(store, manNum, counter)
    ensures counter + 1 <= place <= |store| + 1
  {
    place := counter;
    var k := counter;
    while k < |store|
      invariant counter <= k <= |store|
      invariant place + Smaller(store, manNum, k) == counter + Smaller(store, manNum, counter)
    {
      if manNum > store[k].manhattan {
        place := place + 1;
      }
      k := k + 1;
    }
    place := place + 1;
  }

  /** The place is one past the end exactly when every board from the cursor
      on has a strictly smaller priority. */
  lemma PlaceAtTail(store: seq<Node>, manNum: int, counter: int)
    requires 0 <= counter <= |store|
    ensures counter + 1 + Smaller(store, manNum, counter) == |store| + 1 <==>
      forall k :: counter <= k < |store| ==> store[k].manhattan < manNum
  {
    SmallerAll(store, manNum, counter);
  }

  /** The "+1" counts the expanded board too: when its priority is below the
      candidate's, the candidate goes at least two places past the cursor,
      behind the board right after the cursor whatever that board's
      priority. */
  lemma ExpandedBoardCounted(store: seq<Node>, manNum: int, counter: int)
    requires 0 <= counter < |store| && store[counter].manhattan < manNum
    ensures counter + 1 + Smaller(store, manNum, counter) >= counter + 2
  {
  }

  /** Three stored boards with priorities 5, 20 and 30, the cursor on the
      first and a candidate of priority 10: the place is 2, behind the board
      of priority 20. */
  lemma PlaceOvershoot(a: Node, b: Node, c: Node)
    requires a.manhattan == 5 && b.manhattan == 20 && c.manhattan == 30
    ensures 0 + 1 + Smaller([a, b, c], 10, 0) == 2
  {
    var s := [a, b, c];
    assert Smaller(s, 10, 3) == 0;
    assert Smaller(s, 10, 2) == 0;
    assert Smaller(s, 10, 1) == 0;
  }

  /** Some board among the first n nodes equals b. */
  predicate InPrefix(s: seq<Node>, b: Board, n: int)
    requires 0 <= n <= |s|
  {
    exists i :: 0 <= i < n && s[i].board == b
  }

  /** Some board anywhere in the store equals b. */
  predicate InStore(s: seq<Node>, b: Board) {
    exists i :: 0 <= i < |s| && s[i].board == b
  }

  /** How many of the first n nodes hold b. */
  function Matches(s: seq<Node>, b: Board, n: int): nat
    requires 0 <= n <= |s|
  {
    if n == 0 then 0 else Matches(s, b, n - 1) + (if s[n - 1].board == b then 1 else 0)
  }

  /** A positive count means the board is there. */
  lemma {:induction false} MatchesFound(s: seq<Node>, b: Board, n: int)
    requires 0 <= n <= |s|
    ensures Matches(s, b, n) > 0 <==> InPrefix(s, b, n)
  {
    if n > 0 {
      MatchesFound(s, b, n - 1);
      if s[n - 1].board != b && InPrefix(s, b, n) {
        var i :| 0 <= i < n && s[i].board == b;
        assert InPrefix(s, b, n - 1);
      }
    }
  }

  /** test_against: compares the first upperBound boards with `against` and
      counts the equal ones. */
  method TestAgainst(test: seq<Node>, against: Board, upperBound: int) returns (matches: int)
    requires 0 <= upperBound <= |test|
    ensures matches == Matches(test, against, upperBound)
    ensures matches > 0 <==> InPrefix(test, against, upperBound)
  {
    matches := 0;
    var i := 0;
    while i < upperBound
      invariant 0 <= i <= upperBound
      invariant matches == Matches(test, against, i)
    {
      if test[i].board == against {
        matches := matches + 1;
      }
      i := i + 1;
    }
    MatchesFound(test, against, upperBound);
  }

  /** check_if_board: 's' tests the board against the goal, 'e' tests
      whether it is among the first `place` stored boards, and any other
      choice is fatal. */
  method CheckIfBoard(choice: char, current: Node, start: seq<Node>, place: int) returns (r: Result<bool, CheckError>)
    requires choice == AlreadyExists ==> 0 <= place <= |start|
    ensures r.Success? <==> choice == IsSolution || choice == AlreadyExists
    ensures choice == IsSolution ==> r == Success(current.board == Goal)
    ensures choice == AlreadyExists ==> r == Success(InPrefix(start, current.board, place))
  {
    if choice == IsSolution {
      var m := TestAgainst([current], Goal, SolOnly);
      assert [current][0] == current;
      r := Success(m > 0);
    } else if choice == AlreadyExists {
      var m := TestAgainst(start, current.board, place);
      r := Success(m > 0);
    } else {
      r := Failure(UnexpectedChoice);
    }
  }

  /** The moves recorded on a node; on a node whose moves were never set,
      `unset` stands for whatever the allocator left there. */
  function Moves(n: Node, unset: int): int {
    if n.moves.Some? then n.moves.value else unset
  }

  /** The priority of a candidate made from the board `from`. */
  function Priority(child: Board, from: Node, unset: int): int {
    Manhattan(child, Moves(from, unset) + 1)
  }

  /** create_next_board once the move is made and the candidate's priority
      and moves are known: a candidate equal to one of the first `total`
      boards is dropped; otherwise `total` goes up and the candidate is
      appended without moves when its place is one past the end, or spliced
      in at its place with its moves. */
  function Offer(q: PQueue, child: Board, priority: int, moves: int, counter: int): (r: PQueue)
    requires |q.store| == q.total + 1 && 0 <= counter < |q.store|
    ensures |r.store| == r.total + 1
  {
    if InPrefix(q.store, child, q.total) then q
    else
      var place := counter + 1 + Smaller(q.store, priority, counter);
      if q.total + 2 == place then
        PQueue(q.store + [Node(child, counter, None, priority)], q.total + 1)
      else
        PQueue(q.store[..place] + [Node(child, counter, Some(moves), priority)] + q.store[place..], q.total + 1)
  }

  /** The candidates of one expansion of the board `from` offered one after
      another, each with moves one more than its parent's. */
  function OfferAll(q: PQueue, cs: seq<Board>, from: Node, counter: int, unset: int): (r: PQueue)
    requires |q.store| == q.total + 1 && 0 <= counter < |q.store|
    ensures |r.store| == r.total + 1 && |q.store| <= |r.store|
  {
    if cs == [] then q
    else
      var q' := OfferAll(q, cs[..|cs| - 1], from, counter, unset);
      var c := cs[|cs| - 1];
      Offer(q', c, Priority(c, from, unset), Moves(from, unset) + 1, counter)
  }

  /** The offers search_possible_directions makes for the tile at `tile`
      of the board `from`: the directions 0..i-1, in the order N, E, S, W,
      each offering the moved board when the move lands on the blank. */
  function OfferDirections(q: PQueue, from: Node, tile: int, i: int, counter: int, unset: int): (r: PQueue)
    requires |q.store| == q.total + 1 && 0 <= counter < |q.store| && 0 <= tile < NumTiles && 0 <= i <= 4
    ensures |r.store| == r.total + 1 && |q.store| <= |r.store|
  {
    if i == 0 then q
    else if from.board[tile + SearchDirections(tile)[i - 1]] == Blank then
      Offer(OfferDirections(q, from, tile, i - 1, counter, unset),
        Slide(from.board, tile, SearchDirections(tile)[i - 1]),
        Priority(Slide(from.board, tile, SearchDirections(tile)[i - 1]), from, unset),
        Moves(from, unset) + 1, counter)
    else OfferDirections(q, from, tile, i - 1, counter, unset)
  }

  /** The offers define_options_and_explore makes for the board `from`:
      the cells 0..n-1 in row-major order, each tile in its four directions
      and the blank not at all. */
  function OfferTiles(q: PQueue, from: Node, n: int, counter: int, unset: int): (r: PQueue)
    requires |q.store| == q.total + 1 && 0 <= counter < |q.store| && 0 <= n <= NumTiles
    ensures |r.store| == r.total + 1 && |q.store| <= |r.store|
  {
    if n == 0 then q
    else
      var q' := OfferTiles(q, from, n - 1, counter, unset);
      if from.board[n - 1] != Blank then OfferDirections(q', from, n - 1, 4, counter, unset) else q'
  }

  /** Where an offered candidate lands: at its place, or at the end when the
      place is one past it; always after the cursor. Everything stored keeps
      its order around it, and a candidate equal to an earlier board leaves
      the store alone. */
  lemma OfferShape(q: PQueue, child: Board, priority: int, moves: int, counter: int)
    requires |q.store| == q.total + 1 && 0 <= counter < |q.store|
    ensures var r := Offer(q, child, priority, moves, counter);
      var place := counter + 1 + Smaller(q.store, priority, counter);
      var pos := if place == |q.store| + 1 then |q.store| else place;
      && (InPrefix(q.store, child, q.total) ==> r == q)
      && (!InPrefix(q.store, child, q.total) ==>
            && counter < pos <= |q.store|
            && r.total == q.total + 1
            && |r.store| == |q.store| + 1
            && (forall i :: 0 <= i < pos ==> r.store[i] == q.store[i])
            && (forall i :: pos < i < |r.store| ==> r.store[i] == q.store[i - 1])
            && r.store[pos] == Node(child, counter, if pos == place then Some(moves) else None, priority))
  {
    var r := Offer(q, child, priority, moves, counter);
    var place := counter + 1 + Smaller(q.store, priority, counter);
    if !InPrefix(q.store, child, q.total) && place == |q.store| + 1 {
      assert q.store[..|q.store|] == q.store;
      assert q.store[|q.store|..] == [];
    }
  }

  /** The store after an offer need not be in priority order behind the
      cursor: with the cursor on a board of priority 5 followed by boards of
      priority 20 and 30, a new board of priority 10 is spliced in behind
      the one of priority 20, which is therefore expanded first. */
  lemma OfferOutOfOrder(a: Node, b: Node, c: Node, child: Board)
    requires a.manhattan == 5 && b.manhattan == 20 && c.manhattan == 30
    requires child != a.board && child != b.board
    ensures var r := Offer(PQueue([a, b, c], 2), child, 10, 1, 0);
      && r.store == [a, b, Node(child, 0, Some(1), 10), c]
      && r.store[1].manhattan > r.store[2].manhattan
  {
    PlaceOvershoot(a, b, c);
    var s := [a, b, c];
    assert !InPrefix(s, child, 2) by {
      forall i | 0 <= i < 2
        ensures s[i].board != child
      {
      }
    }
    assert s[..2] + [Node(child, 0, Some(1), 10)] + s[2..] == [a, b, Node(child, 0, Some(1), 10), c];
  }

  /** The boards up to the cursor never move. */
  lemma {:induction false} OfferAllPrefix(q: PQueue, cs: seq<Board>, from: Node, counter: int, unset: int)
    requires |q.store| == q.total + 1 && 0 <= counter < |q.store|
    ensures OfferAll(q, cs, from, counter, unset).store[..counter + 1] == q.store[..counter + 1]
  {
    if cs != [] {
      var cs', c := cs[..|cs| - 1], cs[|cs| - 1];
      OfferAllPrefix(q, cs', from, counter, unset);
      var q' := OfferAll(q, cs', from, counter, unset);
      OfferShape(q', c, Priority(c, from, unset), Moves(from, unset) + 1, counter);
    }
  }

  /** One offer keeps every stored board and stores the candidate. */
  lemma OfferStores(q: PQueue, child: Board, priority: int, moves: int, counter: int)
    requires |q.store| == q.total + 1 && 0 <= counter < |q.store|
    ensures var r := Offer(q, child, priority, moves, counter);
      && InStore(r.store, child)
      && forall b :: InStore(q.store, b) ==> InStore(r.store, b)
  {
    var r := Offer(q, child, priority, moves, counter);
    OfferShape(q, child, priority, moves, counter);
    if InPrefix(q.store, child, q.total) {
      var i :| 0 <= i < q.total && q.store[i].board == child;
    } else {
      var place := counter + 1 + Smaller(q.store, priority, counter);
      var pos := if place == |q.store| + 1 then |q.store| else place;
      assert r.store[pos].board == child;
      forall b | InStore(q.store, b)
        ensures InStore(r.store, b)
      {
        var i :| 0 <= i < |q.store| && q.store[i].board == b;
        if i < pos {
          assert r.store[i] == q.store[i];
        } else {
          assert r.store[i + 1] == q.store[i];
        }
      }
    }
  }

  /** OfferAll offers the last candidate after the others. */
  lemma OfferAllLast(q: PQueue, cs: seq<Board>, from: Node, counter: int, unset: int)
    requires |q.store| == q.total + 1 && 0 <= counter < |q.store| && cs != []
    ensures var c := cs[|cs| - 1];
      OfferAll(q, cs, from, counter, unset) ==
        Offer(OfferAll(q, cs[..|cs| - 1], from, counter, unset), c, Priority(c, from, unset), Moves(from, unset) + 1, counter)
  {
  }

  /** After the offers, every stored board and every candidate is stored. */
  lemma {:induction false} OfferAllStores(q: PQueue, cs: seq<Board>, from: Node, counter: int, unset: int)
    requires |q.store| == q.total + 1 && 0 <= counter < |q.store|
    ensures var r := OfferAll(q, cs, from, counter, unset);
      && (forall c :: c in cs ==> InStore(r.store, c))
      && (forall b :: InStore(q.store, b) ==> InStore(r.store, b))
  {
    if cs != [] {
      var cs', c := cs[..|cs| - 1], cs[|cs| - 1];
      OfferAllStores(q, cs', from, counter, unset);
      var q' := OfferAll(q, cs', from, counter, unset);
      OfferStores(q', c, Priority(c, from, unset), Moves(from, unset) + 1, counter);
      OfferAllLast(q, cs, from, counter, unset);
      var r := OfferAll(q, cs, from, counter, unset);
      forall x | x in cs
        ensures InStore(r.store, x)
      {
        if x != c {
          assert x in cs';
          assert InStore(q'.store, x);
        }
      }
      forall x | InStore(q.store, x)
        ensures InStore(r.store, x)
      {
        assert InStore(q'.store, x);
      }
    }
  }

  /** The store's invariant: |store| is total + 1, the root first, every
      other board's parent among the first `expanded` boards and before it,
      every board after the root one move away from its parent's, and every
      board a permutation. */
  predicate Wellformed(q: PQueue, expanded: int) {
    && q.total >= 0 && |q.store| == q.total + 1
    && q.store[0].parent == RootNode
    && (forall i :: 1 <= i < |q.store| ==> 0 <= q.store[i].parent < expanded && q.store[i].parent < i)
    && (forall i :: 1 <= i < |q.store| ==> MovedFrom(q.store, i))
    && (forall i :: 0 <= i < |q.store| ==> IsPermutation(q.store[i].board))
  }

  /** The board at i is a child of its parent's board. */
  predicate MovedFrom(s: seq<Node>, i: int)
    requires 0 <= i < |s| && 0 <= s[i].parent < |s|
  {
    s[i].board in Children(s[s[i].parent].board)
  }

  /** The bookkeeping create_next_board does for the node at i: its priority
      is the Manhattan function of its board with its parent's moves plus
      one, and moves, when recorded, are its parent's plus one. */
  predicate Recorded(s: seq<Node>, unset: int, i: int)
    requires 0 <= i < |s| && 0 <= s[i].parent < |s|
  {
    && s[i].manhattan == Priority(s[i].board, s[s[i].parent], unset)
    && (s[i].moves.Some? ==> s[i].moves.value == Moves(s[s[i].parent], unset) + 1)
  }

  /** Every node after the root carries the bookkeeping of its parent. It is
      held as one fact about BookkeptUpTo the whole store, so that a search
      step carrying it does not unfold the priorities; only OfferBookkept
      opens it. */
  predicate Bookkept(s: seq<Node>, unset: int) {
    forall n :: n == |s| ==> BookkeptUpTo(s, unset, n)
  }

  /** Every node from 1 to n - 1 names an earlier parent and carries its
      bookkeeping. */
  predicate BookkeptUpTo(s: seq<Node>, unset: int, n: int)
    requires 0 <= n <= |s|
  {
    && (forall i :: 1 <= i < n ==> 0 <= s[i].parent < i)
    && (forall i :: 1 <= i < n ==> Recorded(s, unset, i))
  }

  /** An offer of a child of the board at the cursor keeps the invariant. */
  lemma OfferWellformed(q: PQueue, child: Board, priority: int, moves: int, counter: int)
    requires Wellformed(q, counter + 1) && 0 <= counter < |q.store|
    requires child in Children(q.store[counter].board)
    ensures Wellformed(Offer(q, child, priority, moves, counter), counter + 1)
  {
    var r := Offer(q, child, priority, moves, counter);
    OfferShape(q, child, priority, moves, counter);
    ChildrenArePermutations(q.store[counter].board);
    if !InPrefix(q.store, child, q.total) {
      var place := counter + 1 + Smaller(q.store, priority, counter);
      var pos := if place == |q.store| + 1 then |q.store| else place;
      InsertWellformed(q, r, pos, counter);
    }
  }

  /** A store with one new node at pos, past the cursor, whose board is a
      permutation and a child of the board at the cursor, named as its
      parent, keeps the invariant. */
  lemma InsertWellformed(q: PQueue, r: PQueue, pos: int, counter: int)
    requires Wellformed(q, counter + 1) && 0 <= counter < pos <= |q.store|
    requires r.total == q.total + 1 && |r.store| == |q.store| + 1
    requires forall i :: 0 <= i < pos ==> r.store[i] == q.store[i]
    requires forall i :: pos < i < |r.store| ==> r.store[i] == q.store[i - 1]
    requires r.store[pos].parent == counter && IsPermutation(r.store[pos].board)
    requires r.store[pos].board in Children(q.store[counter].board)
    ensures Wellformed(r, counter + 1)
  {
    InsertPermutations(q.store, r.store, pos, counter);
    InsertMoves(q.store, r.store, pos, counter);
  }

  /** InsertWellformed for the parents and the permutations. */
  lemma InsertPermutations(s: seq<Node>, t: seq<Node>, pos: int, counter: int)
    requires 0 <= counter < pos <= |s| && |t| == |s| + 1
    requires forall i :: 0 <= i < |s| ==> IsPermutation(s[i].board)
    requires forall i :: 1 <= i < |s| ==> 0 <= s[i].parent < counter + 1 && s[i].parent < i
    requires forall i :: 0 <= i < pos ==> t[i] == s[i]
    requires forall i :: pos < i < |t| ==> t[i] == s[i - 1]
    requires t[pos].parent == counter && IsPermutation(t[pos].board)
    ensures forall i :: 0 <= i < |t| ==> IsPermutation(t[i].board)
    ensures forall i :: 1 <= i < |t| ==> 0 <= t[i].parent < counter + 1 && t[i].parent < i
  {
    forall i | 0 <= i < |t|
      ensures IsPermutation(t[i].board)
      ensures i >= 1 ==> 0 <= t[i].parent < counter + 1 && t[i].parent < i
    {
      if i < pos {
        assert t[i] == s[i];
      } else if i > pos {
        assert t[i] == s[i - 1];
      }
    }
  }

  /** InsertWellformed for the moves from parents. */
  lemma InsertMoves(s: seq<Node>, t: seq<Node>, pos: int, counter: int)
    requires 0 <= counter < pos <= |s| && |t| == |s| + 1
    requires forall i :: 1 <= i < |s| ==> 0 <= s[i].parent < counter + 1 && s[i].parent < i
    requires forall i :: 1 <= i < |s| ==> MovedFrom(s, i)
    requires forall i :: 1 <= i < |t| ==> 0 <= t[i].parent < counter + 1 && t[i].parent < i
    requires forall i :: 0 <= i < pos ==> t[i] == s[i]
    requires forall i :: pos < i < |t| ==> t[i] == s[i - 1]
    requires t[pos].parent == counter && t[pos].board in Children(s[counter].board)
    ensures forall i :: 1 <= i < |t| ==> MovedFrom(t, i)
  {
    forall i | 1 <= i < |t|
      ensures MovedFrom(t, i)
    {
      var p := t[i].parent;
      assert t[p] == s[p];
      if i < pos {
        assert t[i] == s[i] && MovedFrom(s, i);
      } else if i > pos {
        assert t[i] == s[i - 1] && MovedFrom(s, i - 1);
      }
    }
  }

  /** An offer made on behalf of the board at the cursor, with the priority
      and moves create_next_board computes from it, keeps the bookkeeping. */
  lemma OfferBookkept(q: PQueue, child: Board, from: Node, counter: int, unset: int)
    requires Wellformed(q, counter + 1) && 0 <= counter < |q.store| && from == q.store[counter]
    requires Bookkept(q.store, unset)
    ensures Bookkept(Offer(q, child, Priority(child, from, unset), Moves(from, unset) + 1, counter).store, unset)
  {
    assert BookkeptUpTo(q.store, unset, |q.store|);
    var priority, moves := Priority(child, from, unset), Moves(from, unset) + 1;
    var r := Offer(q, child, priority, moves, counter);
    OfferShape(q, child, priority, moves, counter);
    if !InPrefix(q.store, child, q.total) {
      var place := counter + 1 + Smaller(q.store, priority, counter);
      var pos := if place == |q.store| + 1 then |q.store| else place;
      forall i | 1 <= i < |r.store|
        ensures 0 <= r.store[i].parent < i && Recorded(r.store, unset, i)
      {
        var p := r.store[i].parent;
        if i < pos {
          assert r.store[i] == q.store[i] && Recorded(q.store, unset, i);
        } else if i > pos {
          assert r.store[i] == q.store[i - 1] && Recorded(q.store, unset, i - 1);
        }
        assert r.store[p] == q.store[p];
      }
    }
    assert BookkeptUpTo(r.store, unset, |r.store|);
  }

  /** The offers of one expansion keep the invariant. */
  lemma {:induction false} OfferAllWellformed(q: PQueue, cs: seq<Board>, from: Node, counter: int, unset: int)
    requires Wellformed(q, counter + 1) && 0 <= counter < |q.store|
    requires forall c :: c in cs ==> c in Children(q.store[counter].board)
    ensures Wellformed(OfferAll(q, cs, from, counter, unset), counter + 1)
  {
    if cs != [] {
      var cs' := cs[..|cs| - 1];
      assert forall c :: c in cs' ==> c in cs;
      assert cs[|cs| - 1] in cs;
      OfferAllWellformed(q, cs', from, counter, unset);
      OfferLastWellformed(q, cs, from, counter, unset);
    }
  }

  /** The step of OfferAllWellformed: the last offer. */
  lemma OfferLastWellformed(q: PQueue, cs: seq<Board>, from: Node, counter: int, unset: int)
    requires Wellformed(q, counter + 1) && 0 <= counter < |q.store| && cs != []
    requires cs[|cs| - 1] in Children(q.store[counter].board)
    requires Wellformed(OfferAll(q, cs[..|cs| - 1], from, counter, unset), counter + 1)
    ensures Wellformed(OfferAll(q, cs, from, counter, unset), counter + 1)
  {
    var cs', c := cs[..|cs| - 1], cs[|cs| - 1];
    OfferAllPrefix(q, cs', from, counter, unset);
    var q' := OfferAll(q, cs', from, counter, unset);
    assert q'.store[counter] == q'.store[..counter + 1][counter] == q.store[counter];
    OfferWellformed(q', c, Priority(c, from, unset), Moves(from, unset) + 1, counter);
    OfferAllLast(q, cs, from, counter, unset);
  }

  /** The offers of one expansion of the board at the cursor keep the
      bookkeeping. */
  lemma {:induction false} OfferAllBookkept(q: PQueue, cs: seq<Board>, from: Node, counter: int, unset: int)
    requires Wellformed(q, counter + 1) && 0 <= counter < |q.store| && from == q.store[counter]
    requires forall c :: c in cs ==> c in Children(q.store[counter].board)
    requires Bookkept(q.store, unset)
    ensures Bookkept(OfferAll(q, cs, from, counter, unset).store, unset)
  {
    if cs != [] {
      var cs' := cs[..|cs| - 1];
      assert forall c :: c in cs' ==> c in cs;
      OfferAllBookkept(q, cs', from, counter, unset);
      OfferAllWellformed(q, cs', from, counter, unset);
      OfferAllPrefix(q, cs', from, counter, unset);
      var q' := OfferAll(q, cs', from, counter, unset);
      assert q'.store[counter] == q'.store[..counter + 1][counter] == q.store[counter];
      OfferLastBookkept(q, cs, q', from, counter, unset);
    }
  }

  /** The step of OfferAllBookkept: the last offer. */
  lemma OfferLastBookkept(q: PQueue, cs: seq<Board>, q': PQueue, from: Node, counter: int, unset: int)
    requires |q.store| == q.total + 1 && 0 <= counter < |q.store| && cs != []
    requires q' == OfferAll(q, cs[..|cs| - 1], from, counter, unset)
    requires Wellformed(q', counter + 1) && from == q'.store[counter] && Bookkept(q'.store, unset)
    ensures Bookkept(OfferAll(q, cs, from, counter, unset).store, unset)
  {
    var c := cs[|cs| - 1];
    OfferBookkept(q', c, from, counter, unset);
    OfferAllLast(q, cs, from, counter, unset);
  }

  /** Every child of the first n stored boards is stored. */
  predicate ClosedBelow(s: seq<Node>, n: int)
    requires 0 <= n <= |s|
  {
    forall k, c :: 0 <= k < n && c in Children(s[k].board) ==> InStore(s, c)
  }

  /** Expanding one more board only relaxes the bound on parents. */
  lemma WellformedMore(q: PQueue, expanded: int)
    requires Wellformed(q, expanded)
    ensures Wellformed(q, expanded + 1)
  {
  }

  /** The store after expanding the board at `index` is closed one board
      further, when it keeps the boards up to `index`, keeps every stored
      board and holds every child of the expanded one. */
  lemma ClosedAfterExpansion(q: seq<Node>, r: seq<Node>, index: int)
    requires 0 <= index < |q| <= |r| && r[..index + 1] == q[..index + 1]
    requires ClosedBelow(q, index)
    requires forall c :: c in Children(q[index].board) ==> InStore(r, c)
    requires forall b :: InStore(q, b) ==> InStore(r, b)
    ensures ClosedBelow(r, index + 1)
  {
    forall k, c | 0 <= k < index + 1 && c in Children(r[k].board)
      ensures InStore(r, c)
    {
      assert r[k] == r[..index + 1][k] == q[k];
      if k < index {
        assert InStore(q, c);
      }
    }
  }

  /** One expansion of the board at `index`, as find_optimal_solution sees
      it: the boards up to it stay, the invariant holds with one more board
      expanded, and every child of the expanded boards is stored. */
  lemma Expansion(q: PQueue, index: int, unset: int)
    requires Wellformed(q, index) && 0 <= index < |q.store|
    requires ClosedBelow(q.store, index)
    ensures var r := OfferTiles(q, q.store[index], NumTiles, index, unset);
      && r.store[..index + 1] == q.store[..index + 1]
      && Wellformed(r, index + 1)
      && ClosedBelow(r.store, index + 1)
      && (Bookkept(q.store, unset) ==> Bookkept(r.store, unset))
  {
    var b := q.store[index].board;
    var cs := Children(b);
    OfferTilesAll(q, q.store[index], NumTiles, index, unset);
    WellformedMore(q, index);
    var r := OfferAll(q, cs, q.store[index], index, unset);
    OfferAllPrefix(q, cs, q.store[index], index, unset);
    OfferAllStores(q, cs, q.store[index], index, unset);
    OfferAllWellformed(q, cs, q.store[index], index, unset);
    ClosedAfterExpansion(q.store, r.store, index);
    if Bookkept(q.store, unset) {
      OfferAllBookkept(q, cs, q.store[index], index, unset);
    }
  }

  /** The boards of the store, as a set. */
  ghost function Found(s: seq<Node>): set<Board> {
    set i | 0 <= i < |s| :: s[i].board
  }

  /** Running the cursor past the end is a sound verdict of unsolvability:
      when every stored board has been expanded and none is the goal, the
      goal cannot be reached from the root in any number of moves. */
  lemma ExhaustedSound(s: seq<Node>, n: nat)
    requires |s| >= 1 && ClosedBelow(s, |s|)
    requires forall k :: 0 <= k < |s| ==> s[k].board != Goal
    ensures !Reachable(s[0].board, Goal, n)
  {
    var found := Found(s);
    forall a, c | a in found && c in Children(a)
      ensures c in found
    {
      var k :| 0 <= k < |s| && s[k].board == a;
      assert c in Children(s[k].board);
      assert InStore(s, c);
      var i :| 0 <= i < |s| && s[i].board == c;
    }
    assert s[0].board in found;
    ReachableFound(found, s[0].board, Goal, n);
  }

  /** The queue of the priority search: the linked store, the static count
      `total` of create_next_board, and the cursor `counter` of main. The
      constant `unset` stands for the moves read from a node that never had
      them set. */
  class PrioritySearch {
    var store: seq<Node>
    var total: int
    var counter: int
    const unset: int

    function Snapshot(): PQueue
      reads this
    {
      PQueue(store, total)
    }

    /** total counts every board but the root, and the cursor is within the
        store or just past it. */
    ghost predicate Valid()
      reads this
    {
      total >= 0 && |store| == total + 1 && 0 <= counter <= |store|
    }

    /** main with puzzle_from_file: the starting board alone, as the root,
        with no moves and the largest priority. */
    constructor(root: Board, unset: int)
      requires IsPermutation(root)
      ensures Valid() && Wellformed(Snapshot(), 0) && this.unset == unset
      ensures store == [Node(root, RootNode, Some(0), QMax)] && total == 0 && counter == 0
    {
      store := [Node(root, RootNode, Some(0), QMax)];
      total := 0;
      counter := 0;
      this.unset := unset;
    }

    /** insert: splice a node that carries its moves in at `place`. */
    method Insert(board: Board, place: int, parent: int, moves: int, manNum: int)
      requires 1 <= place <= |store|
      modifies this
      ensures store == old(store[..place]) + [Node(board, parent, Some(moves), manNum)] + old(store[place..])
      ensures total == old(total) && counter == old(counter)
    {
      store := store[..place] + [Node(board, parent, Some(moves), manNum)] + store[place..];
    }

    /** The rest of create_next_board for a candidate that is not among the
        first `total` boards: determine_place, then `total` goes up and the
        candidate is appended without moves when its place is one past the
        end, or inserted at its place. */
    method Place(child: Board, index: int, moves: int, manNum: int)
      requires Valid() && 0 <= index < |store| && !InPrefix(store, child, total)
      modifies this
      ensures Valid() && counter == old(counter)
      ensures Snapshot() == Offer(old(Snapshot()), child, manNum, moves, index)
    {
      var place := DeterminePlace(manNum, store, index);
      total := total + 1;
      if total + 1 == place {
        store := store + [Node(child, index, None, manNum)];
      } else {
        Insert(child, place, index, moves, manNum);
      }
    }

    /** create_next_board: make the move on a copy of the board being
        expanded and offer the result. A displacement other than N, E, S, W
        is fatal and changes nothing. */
    method CreateNextBoard(copy: Node, index: int, tile: int, direction: int) returns (err: Option<MoveError>)
      requires Valid() && 0 <= index < |store| && 0 <= tile < NumTiles && AllSymbols(copy.board)
      requires direction in {MoveN, MoveE, MoveS, MoveW} ==> 0 <= tile + direction < NumTiles
      modifies this
      ensures Valid() && counter == old(counter) && |store| >= old(|store|)
      ensures direction !in {MoveN, MoveE, MoveS, MoveW} ==> err.Some? && Snapshot() == old(Snapshot())
      ensures direction in {MoveN, MoveE, MoveS, MoveW} ==>
        err.None? &&
        Snapshot() == Offer(old(Snapshot()), Slide(copy.board, tile, direction),
          Priority(Slide(copy.board, tile, direction), copy, unset), Moves(copy, unset) + 1, index)
    {
      var moved := MakeMove(copy.board, tile, direction);
      if moved.Failure? {
        return Some(moved.error);
      }
      var child := moved.value;
      assert child == Slide(copy.board, tile, direction);
      var potential := Node(child, index, copy.moves, copy.manhattan);
      var found := CheckIfBoard(AlreadyExists, potential, store, total);
      if !found.value {
        var moves := Moves(potential, unset);
        moves := moves + 1;
        assert moves == Moves(copy, unset) + 1;
        SlideSymbols(copy.board, tile, direction);
        var manNum := ManhattanFunction(child, moves);
        assert manNum.value == Priority(child, copy, unset);
        Place(child, index, moves, manNum.value);
      }
      err := None;
    }

    /** search_possible_directions: each of the four directions, in order,
        that lands on the blank yields a candidate. */
    method SearchPossibleDirections(tile: int, direction: seq<int>, current: Node, index: int)
      requires Valid() && 0 <= index < |store| && AllSymbols(current.board)
      requires 0 <= tile < NumTiles && current.board[tile] != Blank
      requires direction == SearchDirections(tile)
      modifies this
      ensures Valid() && counter == old(counter)
      ensures Snapshot() == OfferDirections(old(Snapshot()), current, tile, 4, index, unset)
    {
      ghost var q0 := Snapshot();
      var i := 0;
      while i < 4
        invariant 0 <= i <= 4
        invariant Valid() && counter == old(counter) && index < |store|
        invariant Snapshot() == OfferDirections(q0, current, tile, i, index, unset)
      {
        TryDirection(tile, direction[i], current, index, q0, i);
        i := i + 1;
      }
    }

    /** One pass of the loop of search_possible_directions: the move in
        direction d is made when it lands on the blank. */
    method TryDirection(tile: int, d: int, current: Node, index: int, ghost q0: PQueue, ghost i: int)
      requires Valid() && 0 <= index < |store| && AllSymbols(current.board)
      requires 0 <= tile < NumTiles && current.board[tile] != Blank
      requires 0 <= i < 4 && d == SearchDirections(tile)[i]
      requires |q0.store| == q0.total + 1 && index < |q0.store|
      requires Snapshot() == OfferDirections(q0, current, tile, i, index, unset)
      modifies this
      ensures Valid() && counter == old(counter) && index < |store|
      ensures Snapshot() == OfferDirections(q0, current, tile, i + 1, index, unset)
    {
      ghost var q := Snapshot();
      if current.board[tile + d] == Blank {
        assert d in {MoveN, MoveE, MoveS, MoveW};
        var err := CreateNextBoard(current, index, tile, d);
        OfferDirectionsMoved(q0, q, Snapshot(), current, tile, i, d, index, unset);
      } else {
        OfferDirectionsSkipped(q0, current, tile, i, index, unset);
      }
    }

    /** define_options_and_explore: every non-blank cell, in row-major
        order, is tried in the four directions. */
    method DefineOptionsAndExplore(current: Node, index: int)
      requires Valid() && 0 <= index < |store| && current == store[index]
      requires Wellformed(Snapshot(), index) && ClosedBelow(store, index)
      modifies this
      ensures Valid() && counter == old(counter)
      ensures Snapshot() == OfferTiles(old(Snapshot()), current, NumTiles, index, unset)
      ensures store[..index + 1] == old(store[..index + 1])
      ensures Wellformed(Snapshot(), index + 1) && ClosedBelow(store, index + 1)
      ensures Bookkept(old(store), unset) ==> Bookkept(store, unset)
    {
      PermutationSymbols(current.board);
      ghost var q0 := Snapshot();
      var tile := 0;
      while tile < NumTiles
        invariant 0 <= tile <= NumTiles
        invariant Valid() && counter == old(counter) && index < |store|
        invariant Snapshot() == OfferTiles(q0, current, tile, index, unset)
      {
        if current.board[tile] != Blank {
          var direction := SearchDirections(tile);
          SearchPossibleDirections(tile, direction, current, index);
        }
        tile := tile + 1;
      }
      Expansion(q0, index, unset);
    }

    /** find_optimal_solution: test the board last expanded (at first the
        root) against the goal, and until it matches expand the board at the
        cursor and move the cursor on. There is no check for the end of the
        store; reaching it is reported as CursorPastEnd. The fuel bounds the
        number of expansions. */
    method FindOptimalSolution(fuel: nat) returns (outcome: Outcome)
      requires Valid() && Wellformed(Snapshot(), 0) && |store| == 1 && counter == 0
      modifies this
      ensures Valid() && Wellformed(Snapshot(), counter) && Bookkept(store, unset) && store[0] == old(store[0])
      ensures old(store[0].board) == Goal ==> outcome == Solved && counter == 0
      ensures outcome == Solved ==>
        if counter == 0 then store[0].board == Goal
        else store[counter - 1].board == Goal && forall k :: 0 <= k < counter - 1 ==> store[k].board != Goal
      ensures outcome == CursorPastEnd ==>
        && counter == |store| && ClosedBelow(store, |store|)
        && (forall k :: 0 <= k < |store| ==> store[k].board != Goal)
        && forall n: nat :: !Reachable(store[0].board, Goal, n)
      ensures outcome == OutOfFuel ==> forall k :: 0 <= k < counter ==> store[k].board != Goal
    {
      var current := store[0];
      var check := CheckIfBoard(IsSolution, current, store, counter);
      var steps := fuel;
      outcome := Solved;
      while !check.value
        invariant Valid() && Wellformed(Snapshot(), counter) && Bookkept(store, unset) && store[0] == old(store[0])
        invariant counter == 0 || store[0].board != Goal
        invariant check.Success? && (check.value <==> current.board == Goal)
        invariant current == store[if counter == 0 then 0 else counter - 1]
        invariant forall k :: 0 <= k < counter - 1 ==> store[k].board != Goal
        invariant ClosedBelow(store, counter)
        invariant outcome == Solved
        decreases steps
      {
        if steps == 0 {
          outcome := OutOfFuel;
          break;
        }
        if counter == |store| {
          forall n: nat
            ensures !Reachable(store[0].board, Goal, n)
          {
            ExhaustedSound(store, n);
          }
          outcome := CursorPastEnd;
          break;
        }
        steps := steps - 1;
        ghost var previous, s0, c0 := current, store, counter;
        current := ExpandCursor();
        forall k | 0 <= k < counter - 1
          ensures store[k].board != Goal
        {
          assert store[k] == s0[k];
          if k == c0 - 1 {
            assert s0[k] == previous;
          }
        }
        check := CheckIfBoard(IsSolution, current, store, counter);
      }
    }

    /** One turn of the loop of find_optimal_solution: expand the board at
        the cursor and move the cursor past it. */
    method ExpandCursor() returns (current: Node)
      requires Valid() && counter < |store| && Wellformed(Snapshot(), counter) && ClosedBelow(store, counter)
      modifies this
      ensures Valid() && counter == old(counter) + 1 && current == old(store[counter])
      ensures Snapshot() == OfferTiles(old(Snapshot()), current, NumTiles, old(counter), unset)
      ensures forall k :: 0 <= k < counter ==> store[k] == old(store[k])
      ensures Wellformed(Snapshot(), counter) && ClosedBelow(store, counter)
      ensures Bookkept(old(store), unset) ==> Bookkept(store, unset)
    {
      current := store[counter];
      var index := counter;
      counter := counter + 1;
      DefineOptionsAndExplore(current, index);
      forall k | 0 <= k <= index
        ensures store[k] == old(store[k])
      {
        assert store[k] == store[..index + 1][k];
      }
    }
  }

  /** A step of the loop of search_possible_directions whose direction
      lands on the blank: the moved board is offered. */
  lemma OfferDirectionsMoved(q0: PQueue, q: PQueue, r: PQueue, from: Node, tile: int, i: int, d: int, counter: int, unset: int)
    requires |q0.store| == q0.total + 1 && 0 <= counter < |q0.store| && 0 <= tile < NumTiles && 0 <= i < 4
    requires d == SearchDirections(tile)[i] && from.board[tile + d] == Blank
    requires q == OfferDirections(q0, from, tile, i, counter, unset)
    requires r == Offer(q, Slide(from.board, tile, d), Priority(Slide(from.board, tile, d), from, unset), Moves(from, unset) + 1, counter)
    ensures r == OfferDirections(q0, from, tile, i + 1, counter, unset)
  {
  }

  /** A step of the loop of search_possible_directions whose direction
      does not land on the blank: nothing is offered. */
  lemma OfferDirectionsSkipped(q0: PQueue, from: Node, tile: int, i: int, counter: int, unset: int)
    requires |q0.store| == q0.total + 1 && 0 <= counter < |q0.store| && 0 <= tile < NumTiles && 0 <= i < 4
    requires from.board[tile + SearchDirections(tile)[i]] != Blank
    ensures OfferDirections(q0, from, tile, i + 1, counter, unset) == OfferDirections(q0, from, tile, i, counter, unset)
  {
  }

  /** One more direction of search_possible_directions: a move onto the
      blank offers the moved board, any other direction offers nothing. */
  lemma OfferDirection(q0: PQueue, current: Node, tile: int, i: int, index: int, unset: int)
    requires |q0.store| == q0.total + 1 && 0 <= index < |q0.store|
    requires 0 <= tile < NumTiles && 0 <= i < 4 && current.board[tile] != Blank
    ensures var b := current.board;
      var d := SearchDirections(tile)[i];
      var q := OfferAll(q0, ChildrenByDirection(b, tile, i), current, index, unset);
      OfferAll(q0, ChildrenByDirection(b, tile, i + 1), current, index, unset) ==
        if b[tile + d] == Blank
        then Offer(q, Slide(b, tile, d), Priority(Slide(b, tile, d), current, unset), Moves(current, unset) + 1, index)
        else q
  {
    var b := current.board;
    var d := SearchDirections(tile)[i];
    var before := ChildrenByDirection(b, tile, i);
    var offered := TryMove(b, tile, d);
    assert ChildrenByDirection(b, tile, i + 1) == before + offered;
    if b[tile + d] == Blank {
      assert d != 0;
      assert offered == [Slide(b, tile, d)];
      OfferAllSnoc(q0, before, Slide(b, tile, d), current, index, unset);
    } else {
      assert before + offered == before;
    }
  }

  /** Offering one more candidate. */
  lemma OfferAllSnoc(q: PQueue, cs: seq<Board>, c: Board, from: Node, counter: int, unset: int)
    requires |q.store| == q.total + 1 && 0 <= counter < |q.store|
    ensures OfferAll(q, cs + [c], from, counter, unset) ==
      Offer(OfferAll(q, cs, from, counter, unset), c, Priority(c, from, unset), Moves(from, unset) + 1, counter)
  {
    var cs' := cs + [c];
    SnocPrefix(cs, c);
    assert cs'[..|cs'| - 1] == cs && cs'[|cs'| - 1] == c;
  }

  /** Offering direction by direction is offering the tile's children. */
  lemma {:induction false} OfferDirectionsAll(q: PQueue, from: Node, tile: int, i: int, counter: int, unset: int)
    requires |q.store| == q.total + 1 && 0 <= counter < |q.store| && 0 <= tile < NumTiles && 0 <= i <= 4
    requires from.board[tile] != Blank
    ensures OfferDirections(q, from, tile, i, counter, unset) ==
      OfferAll(q, ChildrenByDirection(from.board, tile, i), from, counter, unset)
  {
    if i > 0 {
      OfferDirectionsAll(q, from, tile, i - 1, counter, unset);
      OfferDirection(q, from, tile, i - 1, counter, unset);
    }
  }

  /** Offering cell by cell is offering the children of those cells. */
  lemma {:induction false} OfferTilesAll(q: PQueue, from: Node, n: int, counter: int, unset: int)
    requires |q.store| == q.total + 1 && 0 <= counter < |q.store| && 0 <= n <= NumTiles
    ensures OfferTiles(q, from, n, counter, unset) == OfferAll(q, ChildrenBelow(from.board, n), from, counter, unset)
  {
    OfferCellsUpTo(q, from, n, counter, unset);
    assert OffersCells(q, from, n, counter, unset);
  }

  /** OfferTilesAll for n cells, held as one fact that mentions no offer:
      the induction below opens it only at the cell it steps over, so its
      own context never unfolds the offers. */
  predicate OfferedCells(q: PQueue, from: Node, n: int, counter: int, unset: int)
    requires |q.store| == q.total + 1 && 0 <= counter < |q.store| && 0 <= n <= NumTiles
  {
    forall k :: k == n ==> OffersCells(q, from, k, counter, unset)
  }

  predicate OffersCells(q: PQueue, from: Node, k: int, counter: int, unset: int)
    requires |q.store| == q.total + 1 && 0 <= counter < |q.store| && 0 <= k <= NumTiles
  {
    OfferTiles(q, from, k, counter, unset) == OfferAll(q, ChildrenBelow(from.board, k), from, counter, unset)
  }

  /** OfferTilesAll by induction on n, behind OfferedCells. */
  lemma {:induction false} OfferCellsUpTo(q: PQueue, from: Node, n: int, counter: int, unset: int)
    requires |q.store| == q.total + 1 && 0 <= counter < |q.store| && 0 <= n <= NumTiles
    ensures OfferedCells(q, from, n, counter, unset)
  {
    if n > 0 {
      OfferCellsUpTo(q, from, n - 1, counter, unset);
      assert OffersCells(q, from, n - 1, counter, unset);
      OfferTilesStep(q, from, n, counter, unset);
      assert OffersCells(q, from, n, counter, unset);
    } else {
      assert OffersCells(q, from, 0, counter, unset);
    }
  }

  /** The step of OfferTilesAll: the cell n - 1 offers its children. */
  lemma OfferTilesStep(q: PQueue, from: Node, n: int, counter: int, unset: int)
    requires |q.store| == q.total + 1 && 0 <= counter < |q.store| && 1 <= n <= NumTiles
    requires OfferTiles(q, from, n - 1, counter, unset) == OfferAll(q, ChildrenBelow(from.board, n - 1), from, counter, unset)
    ensures OfferTiles(q, from, n, counter, unset) == OfferAll(q, ChildrenBelow(from.board, n), from, counter, unset)
  {
    var b := from.board;
    var before := ChildrenBelow(b, n - 1);
    var q' := OfferTiles(q, from, n - 1, counter, unset);
    assert ChildrenBelow(b, n) == before + ChildrenAt(b, n - 1);
    if b[n - 1] != Blank {
      OfferAllConcat(q, before, ChildrenByDirection(b, n - 1, 4), from, counter, unset);
      OfferDirectionsAll(q', from, n - 1, 4, counter, unset);
    } else {
      assert before + [] == before;
    }
  }

  /** Offering xs and then ys is offering xs + ys. */
  lemma {:induction false} OfferAllConcat(q: PQueue, xs: seq<Board>, ys: seq<Board>, from: Node, counter: int, unset: int)
    requires |q.store| == q.total + 1 && 0 <= counter < |q.store|
    ensures OfferAll(q, xs + ys, from, counter, unset) ==
      OfferAll(OfferAll(q, xs, from, counter, unset), ys, from, counter, unset)
  {
    if ys != [] {
      var ys' := ys[..|ys| - 1];
      ConcatDropLast(xs, ys);
      OfferAllConcat(q, xs, ys', from, counter, unset);
    } else {
      assert xs + ys == xs;
    }
  }
}
