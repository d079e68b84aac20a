/** The parts of the extended program's display that are not terminal
    output: tracing the solution back to the starting board through the
    parent indices, listing it from start to goal, and laying a board out on
    the large character display. Following `next` k times from the head of
    the store becomes indexing the store at k. */
module ManhattanDisplay {
  import opened Board
  import opened ManhattanEightTile

  // ---------------------------------------------------------------------
  // Path reconstruction
  // ---------------------------------------------------------------------

  /** Every parent link either marks the root or leads to an earlier board,
      so following the links from any board reaches a root. */
  predicate ParentsDescend(s: seq<Node>) {
    forall i :: 0 <= i < |s| ==> s[i].parent == RootNode || 0 <= s[i].parent < i
  }

  /** The store the priority search keeps has descending parent links. */
  lemma WellformedDescends(q: PQueue, expanded: int)
    requires Wellformed(q, expanded)
    ensures ParentsDescend(q.store)
  {
    forall i | 0 <= i < |q.store|
      ensures q.store[i].parent == RootNode || 0 <= q.store[i].parent < i
    {
      if i > 0 {
        assert 0 <= q.store[i].parent < expanded && q.store[i].parent < i;
      }
    }
  }

  /** pointer_chase: following `next` d times from the head of the store;
      a displacement of zero or less stays on the head. */
  function Chase(d: int): nat {
    if d < 0 then 0 else d
  }

  /** Step k of a path: the next entry is the parent of the board this one
      leads to, and smaller. */
  predicate LinkedAt(s: seq<Node>, p: seq<int>, k: int) {
    0 <= k < |p| - 1 && Chase(p[k]) < |s| && p[k + 1] == s[Chase(p[k])].parent && p[k + 1] < Chase(p[k])
  }

  /** The entries sort_print_array writes when it starts at displacement d:
      d first, then the parent of each board reached, until a board whose
      parent is the root mark. Every entry after the first is a board index,
      each is the parent of the one before it, and they strictly decrease. */
  function PathFrom(s: seq<Node>, d: int): (p: seq<int>)
    requires ParentsDescend(s) && 0 < |s| && d < |s|
    ensures 1 <= |p| <= Chase(d) + 1 && p[0] == d
    ensures forall k :: 0 <= k < |p| ==> Chase(p[k]) <= Chase(d)
    ensures forall k :: 1 <= k < |p| ==> 0 <= p[k]
    ensures forall k :: 0 <= k < |p| - 1 ==> LinkedAt(s, p, k)
    ensures s[Chase(p[|p| - 1])].parent == RootNode
    decreases Chase(d)
  {
    if s[Chase(d)].parent == RootNode then [d]
    else
      var rest := PathFrom(s, s[Chase(d)].parent);
      var p := [d] + rest;
      assert forall k :: 1 <= k < |p| ==> p[k] == rest[k - 1];
      assert forall k :: 0 <= k < |p| - 1 ==> LinkedAt(s, p, k) by {
        forall k | 0 <= k < |p| - 1
          ensures LinkedAt(s, p, k)
        {
          if k > 0 {
            assert LinkedAt(s, rest, k - 1);
          }
        }
      }
      p
  }

  /** In the search's store only the first board has the root mark, so the
      path from any displacement ends at the starting board. */
  lemma PathEndsAtStart(q: PQueue, expanded: int, d: int)
    requires Wellformed(q, expanded) && d < |q.store|
    ensures ParentsDescend(q.store)
    ensures var p := PathFrom(q.store, d); Chase(p[|p| - 1]) == 0
  {
    WellformedDescends(q, expanded);
    var p := PathFrom(q.store, d);
    assert q.store[Chase(p[|p| - 1])].parent == RootNode;
  }

  /** sort_print_array: starting from the solution's place counter - 1,
      write each displacement and move to the parent of the board it leads
      to, until the root mark; the result is the number of entries written.
      The buffer holds QMax entries, so the path must fit in it. */
  method SortPrintArray(start: seq<Node>, printSteps: array<int>, counter: int) returns (steps: int)
    requires ParentsDescend(start) && 0 < |start| && counter <= |start|
    requires printSteps.Length == QMax && |PathFrom(start, counter - 1)| <= QMax
    modifies printSteps
    ensures steps == |PathFrom(start, counter - 1)|
    ensures forall k :: 0 <= k < steps ==> printSteps[k] == PathFrom(start, counter - 1)[k]
    ensures forall k :: steps <= k < QMax ==> printSteps[k] == old(printSteps[k])
  {
    ghost var path := PathFrom(start, counter - 1);
    var i := 0;
    var j := counter - 1;
    steps := 0;
    printSteps[i] := j;
    if 1 < |path| {
      assert LinkedAt(start, path, 0);
    }
    var position := start[Chase(j)];
    j := position.parent;
    steps := steps + 1;
    i := i + 1;
    while j != RootNode
      invariant 1 <= i <= |path| && steps == i
      invariant j == if i < |path| then path[i] else RootNode
      invariant forall k :: 0 <= k < i ==> printSteps[k] == path[k]
      invariant forall k :: i <= k < QMax ==> printSteps[k] == old(printSteps[k])
      decreases |path| - i
    {
      assert j == path[i];
      printSteps[i] := j;
      assert forall k :: 0 <= k <= i ==> printSteps[k] == path[k];
      if i + 1 < |path| {
        assert LinkedAt(start, path, i);
      }
      position := start[Chase(j)];
      j := position.parent;
      steps := steps + 1;
      i := i + 1;
    }
  }

  /** MOVES: the number of moves reported for a path of `prints` boards;
      the starting board is not a move. */
  function MovesOf(prints: int): (m: int)
    ensures m + 1 == prints
  {
    prints - 1
  }

  /** record_of_solution: the boards reached from print_steps[steps] down
      to print_steps[0], numbered from 0, and the total number of moves. */
  method RecordOfSolution(start: seq<Node>, printSteps: array<int>, steps: int)
    returns (record: seq<(int, Board)>, moves: int)
    requires 0 < |start| && 0 <= steps < printSteps.Length
    requires forall k :: 0 <= k <= steps ==> printSteps[k] < |start|
    ensures |record| == steps + 1 && moves == steps
    ensures forall t :: 0 <= t <= steps ==> record[t] == (t, start[Chase(printSteps[steps - t])].board)
  {
    record := [];
    var track := 0;
    var j := steps;
    while j >= 0
      invariant -1 <= j <= steps && track == steps - j && |record| == track
      invariant forall t :: 0 <= t < track ==> record[t] == (t, start[Chase(printSteps[steps - t])].board)
    {
      var shown := start[Chase(printSteps[j])];
      record := record + [(track, shown.board)];
      track := track + 1;
      j := j - 1;
    }
    moves := steps;
  }

  /** Consecutive entries of the walk back from a stored board name boards
      one move apart: the board each entry leads to is a child of the board
      the next entry leads to. */
  lemma PathMoves(q: PQueue, expanded: int, d: int)
    requires Wellformed(q, expanded) && d < |q.store|
    ensures ParentsDescend(q.store)
    ensures var p := PathFrom(q.store, d);
      forall k :: 0 <= k < |p| - 1 ==> q.store[Chase(p[k])].board in Children(q.store[Chase(p[k + 1])].board)
  {
    WellformedDescends(q, expanded);
    var s := q.store;
    var p := PathFrom(s, d);
    forall k | 0 <= k < |p| - 1
      ensures s[Chase(p[k])].board in Children(s[Chase(p[k + 1])].board)
    {
      assert LinkedAt(s, p, k);
      var i := Chase(p[k]);
      assert 0 <= p[k + 1] == s[i].parent;
      assert i != 0;
      assert MovedFrom(s, i);
    }
  }

  /** display_solution's path for the store the search leaves behind: it
      starts at the board the search tested last (the first board when
      nothing was expanded), ends at the starting board, and each board on
      it is one move from the next. */
  lemma SolutionListing(q: PQueue, expanded: int, counter: int)
    requires Wellformed(q, expanded) && 0 <= counter <= |q.store|
    ensures ParentsDescend(q.store)
    ensures var p := PathFrom(q.store, counter - 1);
      && q.store[Chase(p[0])] == q.store[if counter == 0 then 0 else counter - 1]
      && q.store[Chase(p[|p| - 1])] == q.store[0]
      && forall k :: 0 <= k < |p| - 1 ==> q.store[Chase(p[k])].board in Children(q.store[Chase(p[k + 1])].board)
  {
    PathEndsAtStart(q, expanded, counter - 1);
    PathMoves(q, expanded, counter - 1);
  }

  /** display_solution without the terminal output: the walk back from the
      board tested last goes into a fresh buffer of QMax entries and is
      listed from the starting board on. The listing begins at the starting
      board, ends at the board tested last, numbers the boards from 0, and
      puts each board one move after the one before; the moves reported are
      one fewer than the boards. */
  method DisplaySolution(q: PQueue, expanded: int, counter: int) returns (record: seq<(int, Board)>, moves: int)
    requires Wellformed(q, expanded) && ParentsDescend(q.store) && 0 <= counter <= |q.store|
    requires |PathFrom(q.store, counter - 1)| <= QMax
    ensures moves >= 0 && |record| == moves + 1
    ensures record[0].1 == q.store[0].board
    ensures record[moves].1 == q.store[if counter == 0 then 0 else counter - 1].board
    ensures forall t :: 0 <= t < |record| ==> record[t].0 == t
    ensures forall t :: 0 <= t < moves ==> record[t + 1].1 in Children(record[t].1)
  {
    ghost var path := PathFrom(q.store, counter - 1);
    SolutionListing(q, expanded, counter);
    var printSteps := new int[QMax](_ => 0);
    var prints := SortPrintArray(q.store, printSteps, counter);
    assert forall k :: 0 <= k < |path| ==> path[k] <= Chase(path[k]) < |q.store|;
    record, moves := RecordOfSolution(q.store, printSteps, MovesOf(prints));
    ListingFollowsPath(q.store, path, printSteps[..], record);
  }

  /** A listing that shows the boards of a walk back in reverse order shows
      a sequence of moves from the walk's last board to its first. */
  lemma ListingFollowsPath(s: seq<Node>, path: seq<int>, steps: seq<int>, record: seq<(int, Board)>)
    requires 1 <= |path| <= |steps| && |record| == |path|
    requires forall k :: 0 <= k < |path| ==> steps[k] == path[k] && Chase(path[k]) < |s|
    requires forall t :: 0 <= t < |record| ==> record[t] == (t, s[Chase(steps[|path| - 1 - t])].board)
    requires forall k :: 0 <= k < |path| - 1 ==> s[Chase(path[k])].board in Children(s[Chase(path[k + 1])].board)
    ensures record[0].1 == s[Chase(path[|path| - 1])].board
    ensures record[|path| - 1].1 == s[Chase(path[0])].board
    ensures forall t :: 0 <= t < |path| - 1 ==> record[t + 1].1 in Children(record[t].1)
  {
    forall t | 0 <= t < |path| - 1
      ensures record[t + 1].1 in Children(record[t].1)
    {
      var k := |path| - 2 - t;
      assert record[t + 1].1 == s[Chase(path[k])].board;
      assert record[t].1 == s[Chase(path[k + 1])].board;
    }
  }

  // ---------------------------------------------------------------------
  // Layout of the large display
  // ---------------------------------------------------------------------

  /** Width of the border round the board, of the gap between tiles, and
      the side of one enlarged tile. */
  const SideGap: int := 3
  const TileGap: int := 2
  const TileSize: int := 9
  /** Side of the square display: three tiles, two outer borders and two
      gaps, which is 37. */
  const DispSize: int := XS * TileSize + 2 * SideGap + (XS - 1) * TileGap
  /** The background character. */
  const Border: char := '/'

  datatype DisplayError = UnexpectedTileInput

  /** THIRDS: where the n-th row or column of tiles starts on the display. */
  function Thirds(n: int): (v: int)
    ensures 0 <= n < XS ==> SideGap <= v && v + TileSize + SideGap <= DispSize
  {
    SideGap + n * (TileSize + TileGap)
  }

  /** TOP_THIRD and BOTTOM_THIRD: which row of tiles a cell index is
      classified into; anything outside the top and bottom rows counts as the
      middle one. */
  function Third(k: int): (t: int)
    ensures 0 <= t < YS
    ensures 0 <= k < NumTiles ==> t == k / XS
  {
    if k == 0 || k == 1 || k == 2 then 0
    else if k == 6 || k == 7 || k == 8 then 2
    else 1
  }

  /** determine_tile_position: the column found as the i in 0..2 for which
      k - i is divisible by three, the row from the third k falls in. Only a
      zero remainder is tested, so C's truncating remainder and Dafny's
      agree. The switch's default is never reached. */
  method DetermineTilePosition(k: int) returns (y: int, x: int)
    ensures x == Thirds(k % YS)
    ensures y == Thirds(Third(k))
    ensures 0 <= k < NumTiles ==> (y, x) == (Thirds(k / XS), Thirds(k % XS))
  {
    x := 0;
    var i := 0;
    while i < YS
      invariant 0 <= i <= YS
      invariant k % YS < i ==> x == Thirds(k % YS)
    {
      if (k - i) % YS == 0 {
        ModEqual(k, i);
        x := Thirds(i);
      }
      i := i + 1;
    }
    y := Thirds(Third(k));
  }

  /** k - i divisible by three, with i in 0..2, picks out k's remainder. */
  lemma ModEqual(k: int, i: int)
    requires 0 <= i < YS && (k - i) % YS == 0
    ensures i == k % YS
  {
    var m := (k - i) / YS;
    assert k == YS * m + i;
  }

  /** The block of display cell (r, c) covered by the tile at board cell k. */
  predicate InBlock(k: int, r: int, c: int) {
    0 <= k < NumTiles &&
    Thirds(k / XS) <= r < Thirds(k / XS) + TileSize &&
    Thirds(k % XS) <= c < Thirds(k % XS) + TileSize
  }

  /** Every block lies inside the display. */
  lemma BlockInside(k: int, r: int, c: int)
    requires InBlock(k, r, c)
    ensures 0 <= r < DispSize && 0 <= c < DispSize
  {
    assert 0 <= k / XS < YS && 0 <= k % XS < XS;
  }

  /** No display cell lies in two blocks. */
  lemma BlocksDisjoint(k: int, l: int, r: int, c: int)
    requires InBlock(k, r, c) && InBlock(l, r, c)
    ensures k == l
  {
    SameThird(k / XS, l / XS, r);
    SameThird(k % XS, l % XS, c);
    assert k == XS * (k / XS) + k % XS;
    assert l == XS * (l / XS) + l % XS;
  }

  /** The rows (or columns) of tiles are separated by the gap. */
  lemma SameThird(a: int, b: int, v: int)
    requires 0 <= a < XS && 0 <= b < XS
    requires Thirds(a) <= v < Thirds(a) + TileSize && Thirds(b) <= v < Thirds(b) + TileSize
    ensures a == b
  {
  }

  /** The display after the background fill and the tiles at cells 0..n-1:
      a cell in one of those blocks shows that tile's glyph at its offset in
      the block, any other the border. */
  function Painted(normal: Board, glyph: (char, int, int) -> char, n: int, r: int, c: int): char
    requires 0 <= n <= NumTiles
  {
    if n == 0 then Border
    else if InBlock(n - 1, r, c) then glyph(normal[n - 1], r - Thirds((n - 1) / XS), c - Thirds((n - 1) % XS))
    else Painted(normal, glyph, n - 1, r, c)
  }

  /** A cell of block k shows the glyph of cell k at its offset once block k
      is painted. */
  lemma {:induction false} PaintedInBlock(normal: Board, glyph: (char, int, int) -> char, n: int, k: int, r: int, c: int)
    requires 0 <= k < n <= NumTiles && InBlock(k, r, c)
    ensures Painted(normal, glyph, n, r, c) == glyph(normal[k], r - Thirds(k / XS), c - Thirds(k % XS))
  {
    if k < n - 1 {
      if InBlock(n - 1, r, c) {
        BlocksDisjoint(k, n - 1, r, c);
      }
      PaintedInBlock(normal, glyph, n - 1, k, r, c);
    }
  }

  /** A cell outside every block painted so far shows the border. */
  lemma {:induction false} PaintedOutside(normal: Board, glyph: (char, int, int) -> char, n: int, r: int, c: int)
    requires 0 <= n <= NumTiles && forall k :: 0 <= k < n ==> !InBlock(k, r, c)
    ensures Painted(normal, glyph, n, r, c) == Border
  {
    if n > 0 {
      PaintedOutside(normal, glyph, n - 1, r, c);
    }
  }

  /** make_array_big, as the display it produces: each of the nine blocks
      shows its tile's glyph, and every cell in no block is the border. */
  lemma EnlargedLayout(normal: Board, glyph: (char, int, int) -> char)
    ensures forall k, dr, dc :: 0 <= k < NumTiles && 0 <= dr < TileSize && 0 <= dc < TileSize ==>
      Painted(normal, glyph, NumTiles, Thirds(k / XS) + dr, Thirds(k % XS) + dc) == glyph(normal[k], dr, dc)
    ensures forall r, c :: (forall k :: 0 <= k < NumTiles ==> !InBlock(k, r, c)) ==>
      Painted(normal, glyph, NumTiles, r, c) == Border
  {
    forall k, dr, dc | 0 <= k < NumTiles && 0 <= dr < TileSize && 0 <= dc < TileSize
      ensures Painted(normal, glyph, NumTiles, Thirds(k / XS) + dr, Thirds(k % XS) + dc) == glyph(normal[k], dr, dc)
    {
      PaintedInBlock(normal, glyph, NumTiles, k, Thirds(k / XS) + dr, Thirds(k % XS) + dc);
    }
    forall r, c | forall k :: 0 <= k < NumTiles ==> !InBlock(k, r, c)
      ensures Painted(normal, glyph, NumTiles, r, c) == Border
    {
      PaintedOutside(normal, glyph, NumTiles, r, c);
    }
  }

  /** make_array_big: fill the display with the border, then copy the glyph
      of each board cell, row-major, into its block. `glyph` stands for the
      large graphics of determine_tile; a cell holding neither the blank nor
      a tile is fatal there, after the blocks before it are painted. */
  method MakeArrayBig(normal: Board, big: array2<char>, glyph: (char, int, int) -> char)
    returns (err: Option<DisplayError>)
    requires big.Length0 == DispSize && big.Length1 == DispSize
    modifies big
    ensures err.None? <==> AllSymbols(normal)
    ensures err.None? ==> forall r, c :: 0 <= r < DispSize && 0 <= c < DispSize ==>
      big[r, c] == Painted(normal, glyph, NumTiles, r, c)
  {
    var j := 0;
    while j < DispSize
      invariant 0 <= j <= DispSize
      invariant forall r, c :: 0 <= r < j && 0 <= c < DispSize ==> big[r, c] == Border
    {
      var i := 0;
      while i < DispSize
        invariant 0 <= i <= DispSize
        invariant forall r, c :: 0 <= r < j && 0 <= c < DispSize ==> big[r, c] == Border
        invariant forall c :: 0 <= c < i ==> big[j, c] == Border
      {
        big[j, i] := Border;
        i := i + 1;
      }
      j := j + 1;
    }
    var k := 0;
    while k < NumTiles
      invariant 0 <= k <= NumTiles
      invariant forall m :: 0 <= m < k ==> IsSymbol(normal[m])
      invariant forall r, c :: 0 <= r < DispSize && 0 <= c < DispSize ==> big[r, c] == Painted(normal, glyph, k, r, c)
    {
      var y, x := DetermineTilePosition(k);
      if !IsSymbol(normal[k]) {
        return Some(UnexpectedTileInput);
      }
      PaintBlock(normal, big, glyph, k, y, x);
      k := k + 1;
    }
    err := None;
  }

  /** The nested loops of make_array_big for the block of board cell k at
      (y, x): every cell of the block gets the glyph at its offset, and no
      other cell changes. */
  method PaintBlock(normal: Board, big: array2<char>, glyph: (char, int, int) -> char, k: int, y: int, x: int)
    requires big.Length0 == DispSize && big.Length1 == DispSize
    requires 0 <= k < NumTiles && y == Thirds(k / XS) && x == Thirds(k % XS)
    requires forall r, c :: 0 <= r < DispSize && 0 <= c < DispSize ==> big[r, c] == Painted(normal, glyph, k, r, c)
    modifies big
    ensures forall r, c :: 0 <= r < DispSize && 0 <= c < DispSize ==> big[r, c] == Painted(normal, glyph, k + 1, r, c)
  {
    assert 0 <= k / XS < YS && 0 <= k % XS < XS;
    var j := y;
    while j < y + TileSize
      invariant y <= j <= y + TileSize
      invariant forall r, c :: 0 <= r < DispSize && 0 <= c < DispSize ==>
        big[r, c] == if r < j then Painted(normal, glyph, k + 1, r, c) else Painted(normal, glyph, k, r, c)
    {
      var i := x;
      while i < x + TileSize
        invariant x <= i <= x + TileSize
        invariant forall r, c :: 0 <= r < DispSize && 0 <= c < DispSize ==>
          big[r, c] == if r < j || (r == j && x <= c < i) then Painted(normal, glyph, k + 1, r, c) else Painted(normal, glyph, k, r, c)
      {
        big[j, i] := glyph(normal[k], j - y, i - x);
        i := i + 1;
      }
      j := j + 1;
    }
  }
}
