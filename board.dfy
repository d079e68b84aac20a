/** The board primitives both searches share: the 3x3 grid of tile symbols, the
    solved layout, the bounds checks that decide whether a neighbouring cell
    exists, the move itself, and the fixed order in which successors are
    generated. */
module Board {

  datatype Option<T> = None | Some(value: T)
  datatype Result<T, E> = Success(value: T) | Failure(error: E)

  const YS: int := 3
  const XS: int := 3
  const NumTiles: int := 9
  const Blank: char := ' '
  /** Defines the starting position: the parent of the root board. */
  const RootNode: int := -1

  /** Displacements that reach the cell north, east, south and west of a cell. */
  const MoveN: int := -3
  const MoveE: int := 1
  const MoveS: int := 3
  const MoveW: int := -1

  /** A board is nine cells in row-major order. */
  type Board = b: seq<char> | |b| == 9 witness "12345678 "

  /** The solved layout {{1,2,3},{4,5,6},{7,8,' '}}. */
  const Goal: Board := "12345678 "

  predicate IsSymbol(c: char) {
    c == Blank || '1' <= c <= '8'
  }

  /** Exactly one blank and exactly one of each tile 1..8, and nothing else:
      a rearrangement of " 12345678". */
  predicate IsPermutation(s: seq<char>) {
    forall c :: multiset(s)[c] == if IsSymbol(c) then 1 else 0
  }

  /** The symbol of slot k: the blank for 0, the tile 'k' otherwise. */
  function SymbolOf(k: int): (c: char)
    requires 0 <= k < NumTiles
    ensures IsSymbol(c)
  {
    if k == 0 then Blank else (k + '0' as int) as char
  }

  /** The slot of a symbol: 0 for the blank, k for the tile 'k'. */
  function SymbolIndex(c: char): (k: int)
    requires IsSymbol(c)
    ensures 0 <= k < NumTiles && SymbolOf(k) == c
  {
    if c == Blank then 0 else c as int - '0' as int
  }

  lemma SymbolRoundTrip(k: int)
    requires 0 <= k < NumTiles
    ensures SymbolIndex(SymbolOf(k)) == k
  {
  }

  function Abs(x: int): nat {
    if x < 0 then -x else x
  }

  /** C's `%`, whose remainder truncates toward zero. */
  function CRem(a: int, n: int): (r: int)
    requires n == 3
    ensures -n < r < n
    ensures r == 0 <==> a % n == 0
    ensures a >= 0 ==> r == a % n
  {
    if a >= 0 then a % n else -((-a) % n)
  }

  /** Row and column of a cell, counted out by steps of three. */
  function Row(k: nat): nat { if k < 3 then 0 else Row(k - 3) + 1 }
  function Col(k: nat): nat { if k < 3 then k else Col(k - 3) }

  /** On the board, the row and column are the quotient and remainder by 3. */
  lemma RowCol(k: int)
    requires 0 <= k < NumTiles
    ensures Row(k) == k / 3 && Col(k) == k % 3
  {
    if k == 0 {} else if k == 1 {} else if k == 2 {} else if k == 3 {} else if k == 4 {}
    else if k == 5 {} else if k == 6 {} else if k == 7 {} else {}
  }

  /** Cells p and q are orthogonal neighbours on the grid: same row and one
      column apart, or same column and one row apart. */
  predicate Adjacent(p: int, q: int) {
    0 <= p < NumTiles && 0 <= q < NumTiles &&
    ((Row(p) == Row(q) && (Col(p) == Col(q) + 1 || Col(q) == Col(p) + 1)) ||
     (Col(p) == Col(q) && (Row(p) == Row(q) + 1 || Row(q) == Row(p) + 1)))
  }

  // The four bounds checks, as the source writes them.
  predicate NorthPossible(t: int) { t > XS - 1 }
  predicate EastPossible(t: int) { CRem(t + 1, XS) != 0 }
  predicate SouthPossible(t: int) { t < YS * XS - XS }
  predicate WestPossible(t: int) { CRem(t + XS, XS) != 0 }

  /** The bounds checks never wrap across a row or leave the board. */
  lemma MoveLegality(t: int)
    requires 0 <= t < NumTiles
    ensures NorthPossible(t) <==> t > 2
    ensures EastPossible(t) <==> t % 3 != 2
    ensures SouthPossible(t) <==> t < 6
    ensures WestPossible(t) <==> t % 3 != 0
  {
  }

  /** A move the bounds checks allow stays on the board, reaches an
      orthogonal neighbour, and E/W moves stay in the same row. */
  lemma MovesStayOnBoard(t: int)
    requires 0 <= t < NumTiles
    ensures NorthPossible(t) ==> 0 <= t + MoveN < NumTiles && Adjacent(t, t + MoveN)
    ensures EastPossible(t) ==> 0 <= t + MoveE < NumTiles && Row(t + MoveE) == Row(t) && Adjacent(t, t + MoveE)
    ensures SouthPossible(t) ==> 0 <= t + MoveS < NumTiles && Adjacent(t, t + MoveS)
    ensures WestPossible(t) ==> 0 <= t + MoveW < NumTiles && Row(t + MoveW) == Row(t) && Adjacent(t, t + MoveW)
  {
    MoveLegality(t);
    RowCol(t);
    if NorthPossible(t) {
      AdjacentCases(t, t + MoveN);
    }
    if EastPossible(t) {
      RowCol(t + MoveE);
      AdjacentCases(t, t + MoveE);
    }
    if SouthPossible(t) {
      AdjacentCases(t, t + MoveS);
    }
    if WestPossible(t) {
      RowCol(t + MoveW);
      AdjacentCases(t, t + MoveW);
    }
  }

  /** The displacement to each of N, E, S, W from `tile`, or 0 where that
      neighbour does not exist (determine_search_directions). */
  function SearchDirections(tile: int): (direction: seq<int>)
    requires 0 <= tile < NumTiles
    ensures |direction| == 4
    ensures direction[0] in {0, MoveN} && direction[1] in {0, MoveE}
    ensures direction[2] in {0, MoveS} && direction[3] in {0, MoveW}
    ensures forall i :: 0 <= i < 4 ==> 0 <= tile + direction[i] < NumTiles
    ensures forall i :: 0 <= i < 4 && direction[i] != 0 ==> Adjacent(tile, tile + direction[i])
  {
    MovesStayOnBoard(tile);
    [ if NorthPossible(tile) then MoveN else 0,
      if EastPossible(tile) then MoveE else 0,
      if SouthPossible(tile) then MoveS else 0,
      if WestPossible(tile) then MoveW else 0 ]
  }

  /** Adjacency spelled out as the four displacements. */
  lemma AdjacentCases(p: int, q: int)
    requires 0 <= p < NumTiles && 0 <= q < NumTiles
    ensures Adjacent(p, q) <==>
      (q == p + MoveN && p > 2) || (q == p + MoveS && p < 6) ||
      (q == p + MoveE && p % 3 != 2) || (q == p + MoveW && p % 3 != 0)
  {
    RowCol(p);
    RowCol(q);
    if p == 0 {} else if p == 1 {} else if p == 2 {} else if p == 3 {} else if p == 4 {}
    else if p == 5 {} else if p == 6 {} else if p == 7 {} else {}
  }

  /** The directions offered from a tile reach exactly its neighbours: a
      rejected direction (0) never names a neighbour. */
  lemma SearchDirectionsExact(tile: int, q: int)
    requires 0 <= tile < NumTiles && 0 <= q < NumTiles
    ensures Adjacent(tile, q) <==> q != tile && q - tile in SearchDirections(tile)
  {
    AdjacentCases(tile, q);
    MoveLegality(tile);
  }

  /** The board after the tile in cell `tile` is written into cell
      `tile + d` and its own cell is blanked. */
  function Slide(b: Board, tile: int, d: int): Board
    requires 0 <= tile < NumTiles && 0 <= tile + d < NumTiles
  {
    b[tile + d := b[tile]][tile := Blank]
  }

  datatype MoveError = UnexpectedMove

  /** make_move: any displacement other than N, E, S or W is fatal. */
  function MakeMove(b: Board, tile: int, dirctn: int): (r: Result<Board, MoveError>)
    requires 0 <= tile < NumTiles
    requires dirctn in {MoveN, MoveE, MoveS, MoveW} ==> 0 <= tile + dirctn < NumTiles
    ensures r.Success? <==> dirctn in {MoveN, MoveE, MoveS, MoveW}
    ensures r.Success? ==> r.value[tile + dirctn] == b[tile] && r.value[tile] == Blank
    ensures r.Success? ==> forall k :: 0 <= k < NumTiles && k != tile && k != tile + dirctn ==> r.value[k] == b[k]
    ensures r.Success? && IsPermutation(b) && b[tile] != Blank && b[tile + dirctn] == Blank ==>
              IsPermutation(r.value)
  {
    if dirctn in {MoveN, MoveE, MoveS, MoveW} then
      SlidePreservesPermutation(b, tile, dirctn);
      Success(Slide(b, tile, dirctn))
    else
      Failure(UnexpectedMove)
  }

  /** The move of the tile at `tile` by d, kept when it lands on the blank
      (the test in search_possible_directions). */
  function TryMove(b: Board, tile: int, d: int): seq<Board>
    requires 0 <= tile < NumTiles && 0 <= tile + d < NumTiles
  {
    if b[tile + d] == Blank then [Slide(b, tile, d)] else []
  }

  /** The boards produced from a non-blank tile by trying the directions
      0..i-1 in the order N, E, S, W (search_possible_directions). */
  function ChildrenByDirection(b: Board, tile: int, i: int): seq<Board>
    requires 0 <= tile < NumTiles && 0 <= i <= 4
  {
    if i == 0 then []
    else
      ChildrenByDirection(b, tile, i - 1) + TryMove(b, tile, SearchDirections(tile)[i - 1])
  }

  /** The boards produced from one cell: nothing from the blank itself. */
  function ChildrenAt(b: Board, tile: int): seq<Board>
    requires 0 <= tile < NumTiles
  {
    if b[tile] == Blank then [] else ChildrenByDirection(b, tile, 4)
  }

  /** The boards produced from cells 0..n-1, in the cells' row-major order. */
  function ChildrenBelow(b: Board, n: int): seq<Board>
    requires 0 <= n <= NumTiles
  {
    if n == 0 then [] else ChildrenBelow(b, n - 1) + ChildrenAt(b, n - 1)
  }

  /** All successors of a board, in the order one expansion generates them
      (define_options_and_explore). */
  function Children(b: Board): seq<Board> {
    ChildrenBelow(b, NumTiles)
  }

  /** Cell of the first blank from cell k onward. */
  function BlankFrom(b: Board, k: nat): (p: nat)
    requires k <= NumTiles
    requires exists i :: k <= i < NumTiles && b[i] == Blank
    ensures k <= p < NumTiles && b[p] == Blank
    ensures forall i :: k <= i < p ==> b[i] != Blank
    decreases NumTiles - k
  {
    if b[k] == Blank then k else BlankFrom(b, k + 1)
  }

  /** The cell holding the blank. */
  function BlankIndex(b: Board): (p: nat)
    requires IsPermutation(b)
    ensures p < NumTiles && b[p] == Blank
    ensures forall i :: 0 <= i < NumTiles && i != p ==> b[i] != Blank
  {
    PermutationFacts(b);
    assert Blank in multiset(b);
    var i :| 0 <= i < NumTiles && b[i] == Blank;
    BlankFrom(b, 0)
  }

  /** The cells adjacent to p among 0..n-1, ascending: the reference for the
      successor order. */
  function NeighboursBelow(p: int, n: int): (qs: seq<int>)
    requires 0 <= n <= NumTiles
    ensures forall i :: 0 <= i < |qs| ==> 0 <= qs[i] < n
  {
    if n == 0 then [] else NeighboursBelow(p, n - 1) + (if Adjacent(n - 1, p) then [n - 1] else [])
  }

  /** The neighbour list holds exactly the cells below n adjacent to p, ascending. */
  lemma NeighboursFacts(p: int, n: int)
    requires 0 <= n <= NumTiles
    ensures var qs := NeighboursBelow(p, n);
      && (forall i :: 0 <= i < |qs| ==> Adjacent(qs[i], p))
      && (forall i, j :: 0 <= i < j < |qs| ==> qs[i] < qs[j])
      && (forall q :: 0 <= q < n && Adjacent(q, p) ==> q in qs)
  {
    NeighboursAdjacent(p, n);
    NeighboursAscending(p, n);
    NeighboursComplete(p, n);
  }

  lemma {:induction false} NeighboursAdjacent(p: int, n: int)
    requires 0 <= n <= NumTiles
    ensures forall i :: 0 <= i < |NeighboursBelow(p, n)| ==> Adjacent(NeighboursBelow(p, n)[i], p)
  {
    if n > 0 {
      NeighboursAdjacent(p, n - 1);
      var qs, qs' := NeighboursBelow(p, n - 1), NeighboursBelow(p, n);
      if Adjacent(n - 1, p) {
        assert qs' == qs + [n - 1];
        forall i | 0 <= i < |qs'|
          ensures Adjacent(qs'[i], p)
        {
          if i < |qs| {
            assert qs'[i] == qs[i];
          } else {
            assert qs'[i] == n - 1;
          }
        }
      } else {
        assert qs' == qs;
      }
    }
  }

  lemma {:induction false} NeighboursAscending(p: int, n: int)
    requires 0 <= n <= NumTiles
    ensures forall i, j :: 0 <= i < j < |NeighboursBelow(p, n)| ==> NeighboursBelow(p, n)[i] < NeighboursBelow(p, n)[j]
  {
    if n > 0 {
      NeighboursAscending(p, n - 1);
      var qs, qs' := NeighboursBelow(p, n - 1), NeighboursBelow(p, n);
      if Adjacent(n - 1, p) {
        assert qs' == qs + [n - 1];
        forall i, j | 0 <= i < j < |qs'|
          ensures qs'[i] < qs'[j]
        {
          assert qs'[i] == qs[i];
          if j < |qs| {
            assert qs'[j] == qs[j];
          }
        }
      } else {
        assert qs' == qs;
      }
    }
  }

  lemma {:induction false} NeighboursComplete(p: int, n: int)
    requires 0 <= n <= NumTiles
    ensures forall q :: 0 <= q < n && Adjacent(q, p) ==> q in NeighboursBelow(p, n)
  {
    if n > 0 {
      NeighboursComplete(p, n - 1);
      var qs, qs' := NeighboursBelow(p, n - 1), NeighboursBelow(p, n);
      if Adjacent(n - 1, p) {
        assert qs' == qs + [n - 1];
      } else {
        assert qs' == qs;
      }
      forall q | 0 <= q < n && Adjacent(q, p)
        ensures q in qs'
      {
        if q < n - 1 {
          assert q in qs;
        }
      }
    }
  }

  function Neighbours(p: int): seq<int> {
    NeighboursBelow(p, NumTiles)
  }

  /** Moving a tile into the blank keeps the nine symbols. */
  lemma SlidePreservesPermutation(b: Board, tile: int, d: int)
    requires 0 <= tile < NumTiles && 0 <= tile + d < NumTiles
    ensures IsPermutation(b) && b[tile] != Blank && b[tile + d] == Blank ==> IsPermutation(Slide(b, tile, d))
  {
    if IsPermutation(b) && b[tile] != Blank && b[tile + d] == Blank {
      if tile < tile + d {
        SwapKeepsMultiset(b, tile, tile + d);
      } else {
        SwapKeepsMultiset(b, tile + d, tile);
      }
      assert multiset(Slide(b, tile, d)) == multiset(b);
    }
  }

  /** Exchanging two elements keeps the multiset of a sequence. */
  lemma SwapKeepsMultiset(s: seq<char>, t: int, u: int)
    requires 0 <= t < u < |s|
    ensures multiset(s[t := s[u]][u := s[t]]) == multiset(s)
    ensures multiset(s[u := s[t]][t := s[u]]) == multiset(s)
  {
    var a, m, z := s[..t], s[t + 1..u], s[u + 1..];
    assert s == a + [s[t]] + m + [s[u]] + z;
    assert s[t := s[u]][u := s[t]] == a + [s[u]] + m + [s[t]] + z;
    assert s[u := s[t]][t := s[u]] == a + [s[u]] + m + [s[t]] + z;
  }

  /** A valid board has no blank besides the one at p. */
  lemma OnlyBlank(b: Board, p: int, k: int)
    requires IsPermutation(b) && 0 <= p < NumTiles && b[p] == Blank
    requires 0 <= k < NumTiles && k != p
    ensures b[k] != Blank
  {
    PermutationFacts(b);
    if k < p {
      assert b[k] != b[p];
    } else {
      assert b[p] != b[k];
    }
  }

  /** The blank sits at p and nowhere else. */
  predicate BlankOnlyAt(b: Board, p: int) {
    0 <= p < NumTiles && b[p] == Blank && forall k :: 0 <= k < NumTiles && k != p ==> b[k] != Blank
  }

  lemma BlankOnlyAtPermutation(b: Board, p: int)
    requires IsPermutation(b) && 0 <= p < NumTiles && b[p] == Blank
    ensures BlankOnlyAt(b, p)
  {
    forall k | 0 <= k < NumTiles && k != p
      ensures b[k] != Blank
    {
      OnlyBlank(b, p, k);
    }
  }

  /** From a non-blank cell q, the four directions produce one successor if q
      neighbours the blank at p and none otherwise. */
  lemma ChildrenAtSpec(b: Board, p: int, q: int)
    requires BlankOnlyAt(b, p) && 0 <= q < NumTiles
    ensures ChildrenAt(b, q) == if Adjacent(q, p) then [Slide(b, q, p - q)] else []
  {
    if q != p {
      ChildrenAtTries(b, p, q);
      SearchDirectionsExact(q, p);
    }
  }

  lemma ChildrenAtTries(b: Board, p: int, q: int)
    requires BlankOnlyAt(b, p) && 0 <= q < NumTiles && q != p
    ensures ChildrenAt(b, q) == if p - q in SearchDirections(q) then [Slide(b, q, p - q)] else []
  {
    var d := SearchDirections(q);
    var x := [Slide(b, q, p - q)];
    assert b[q] != Blank;
    FourDirections(b, q);
    assert ChildrenAt(b, q) == TryMove(b, q, d[0]) + TryMove(b, q, d[1]) + TryMove(b, q, d[2]) + TryMove(b, q, d[3]);
    TryMoveSpec(b, p, q, d[0]);
    TryMoveSpec(b, p, q, d[1]);
    TryMoveSpec(b, p, q, d[2]);
    TryMoveSpec(b, p, q, d[3]);
    OneMatch(d, p - q, x);
  }

  /** Four tries of which at most one can match: the matching one's result,
      or nothing. */
  lemma OneMatch(d: seq<int>, v: int, x: seq<Board>)
    requires |d| == 4 && v != 0
    requires d[0] in {0, MoveN} && d[1] in {0, MoveE} && d[2] in {0, MoveS} && d[3] in {0, MoveW}
    ensures (if d[0] == v then x else []) + (if d[1] == v then x else []) +
            (if d[2] == v then x else []) + (if d[3] == v then x else []) ==
            if v in d then x else []
  {
    var none: seq<Board> := [];
    if d[0] == v {
    } else if d[1] == v {
      assert none + x + none + none == x;
    } else if d[2] == v {
      assert none + none + x + none == x;
    } else if d[3] == v {
      assert none + none + none + x == x;
    } else {
      assert v !in d;
    }
  }

  /** All four directions tried from a tile, one after the other. */
  lemma FourDirections(b: Board, q: int)
    requires 0 <= q < NumTiles
    ensures var d := SearchDirections(q);
      ChildrenByDirection(b, q, 4) ==
        TryMove(b, q, d[0]) + TryMove(b, q, d[1]) + TryMove(b, q, d[2]) + TryMove(b, q, d[3])
  {
    var d := SearchDirections(q);
    var none: seq<Board> := [];
    assert ChildrenByDirection(b, q, 0) == none;
    assert ChildrenByDirection(b, q, 1) == TryMove(b, q, d[0]);
    assert ChildrenByDirection(b, q, 2) == TryMove(b, q, d[0]) + TryMove(b, q, d[1]);
  }

  /** A direction from q yields the move exactly when it reaches the blank at p. */
  lemma TryMoveSpec(b: Board, p: int, q: int, d: int)
    requires BlankOnlyAt(b, p) && 0 <= q < NumTiles && q != p
    requires 0 <= q + d < NumTiles
    ensures TryMove(b, q, d) == if d == p - q then [Slide(b, q, p - q)] else []
  {
  }

  /** Reference for the successors from cells 0..n-1: the blank at p swapped
      with each neighbour below n, in cell order. */
  function SlidesBelow(b: Board, p: int, n: int): seq<Board>
    requires 0 <= p < NumTiles && 0 <= n <= NumTiles
  {
    if n == 0 then []
    else SlidesBelow(b, p, n - 1) + (if Adjacent(n - 1, p) then [Slide(b, n - 1, p - (n - 1))] else [])
  }

  lemma {:induction false} ChildrenBelowSlides(b: Board, p: int, n: int)
    requires BlankOnlyAt(b, p) && 0 <= n <= NumTiles
    ensures ChildrenBelow(b, n) == SlidesBelow(b, p, n)
  {
    if n > 0 {
      ChildrenBelowSlides(b, p, n - 1);
      ChildrenAtSpec(b, p, n - 1);
    }
  }

  /** There is one reference successor per neighbour below n. */
  lemma {:induction false} SlidesBelowLength(b: Board, p: int, n: int)
    requires 0 <= p < NumTiles && 0 <= n <= NumTiles
    ensures |SlidesBelow(b, p, n)| == |NeighboursBelow(p, n)|
  {
    if n > 0 {
      SlidesBelowLength(b, p, n - 1);
    }
  }

  /** The i-th reference successor moves the i-th neighbour into the blank. */
  lemma {:induction false} SlidesBelowAt(b: Board, p: int, n: int, i: int)
    requires 0 <= p < NumTiles && 0 <= n <= NumTiles
    requires 0 <= i < |NeighboursBelow(p, n)|
    ensures |SlidesBelow(b, p, n)| == |NeighboursBelow(p, n)|
    ensures SlidesBelow(b, p, n)[i] == Slide(b, NeighboursBelow(p, n)[i], p - NeighboursBelow(p, n)[i])
  {
    SlidesBelowLength(b, p, n);
    var cs, qs := SlidesBelow(b, p, n - 1), NeighboursBelow(p, n - 1);
    SlidesBelowLength(b, p, n - 1);
    if i < |qs| {
      SlidesBelowAt(b, p, n - 1, i);
      assert SlidesBelow(b, p, n)[i] == cs[i];
      assert NeighboursBelow(p, n)[i] == qs[i];
    } else {
      assert NeighboursBelow(p, n)[i] == n - 1;
    }
  }

  /** One expansion yields exactly one successor per tile next to the blank,
      ordered by that tile's cell; in each the tile has moved into the old blank
      cell, its own cell is now blank, and the board is still valid. */
  lemma ChildrenSpec(b: Board, p: int)
    requires IsPermutation(b) && 0 <= p < NumTiles && b[p] == Blank
    ensures |Children(b)| == |Neighbours(p)|
    ensures forall i :: 0 <= i < |Neighbours(p)| ==>
      var q := Neighbours(p)[i];
      && Children(b)[i] == Slide(b, q, p - q)
      && Children(b)[i][p] == b[q] && Children(b)[i][q] == Blank
      && (forall k :: 0 <= k < NumTiles && k != p && k != q ==> Children(b)[i][k] == b[k])
      && IsPermutation(Children(b)[i])
  {
    BlankOnlyAtPermutation(b, p);
    ChildrenBelowSlides(b, p, NumTiles);
    SlidesBelowLength(b, p, NumTiles);
    forall i | 0 <= i < |Neighbours(p)|
      ensures var q := Neighbours(p)[i];
      && Children(b)[i] == Slide(b, q, p - q)
      && Children(b)[i][p] == b[q] && Children(b)[i][q] == Blank
      && (forall k :: 0 <= k < NumTiles && k != p && k != q ==> Children(b)[i][k] == b[k])
      && IsPermutation(Children(b)[i])
    {
      ChildAt(b, p, i);
    }
  }

  /** Every successor is one move: a tile at q next to the blank at p slides
      into it, and every other cell is unchanged. */
  lemma ChildMove(b: Board, c: Board) returns (p: int, q: int)
    requires IsPermutation(b) && c in Children(b)
    ensures 0 <= p < NumTiles && 0 <= q < NumTiles && Adjacent(q, p)
    ensures b[p] == Blank && c[p] == b[q] && c[q] == Blank
    ensures forall k :: 0 <= k < NumTiles && k != p && k != q ==> c[k] == b[k]
  {
    p := BlankIndex(b);
    ChildrenSpec(b, p);
    var i :| 0 <= i < |Children(b)| && Children(b)[i] == c;
    q := Neighbours(p)[i];
    NeighboursAdjacent(p, NumTiles);
  }

  /** The i-th successor: the i-th neighbour of the blank moved into it. */
  lemma ChildAt(b: Board, p: int, i: int)
    requires IsPermutation(b) && BlankOnlyAt(b, p)
    requires 0 <= i < |Neighbours(p)|
    ensures |Children(b)| == |Neighbours(p)|
    ensures var q := Neighbours(p)[i];
      && q != p
      && Children(b)[i] == Slide(b, q, p - q)
      && Children(b)[i][p] == b[q] && Children(b)[i][q] == Blank
      && (forall k :: 0 <= k < NumTiles && k != p && k != q ==> Children(b)[i][k] == b[k])
      && IsPermutation(Children(b)[i])
  {
    ChildIsSlide(b, p, i);
    var q := Neighbours(p)[i];
    SlideFacts(b, p, q);
  }

  /** The i-th successor is the reference slide of the i-th neighbour. */
  lemma ChildIsSlide(b: Board, p: int, i: int)
    requires BlankOnlyAt(b, p)
    requires 0 <= i < |Neighbours(p)|
    ensures |Children(b)| == |Neighbours(p)|
    ensures var q := Neighbours(p)[i];
      0 <= q < NumTiles && q != p && Children(b)[i] == Slide(b, q, p - q)
  {
    ChildBelowIsSlide(b, p, NumTiles, i);
  }

  /** The same for the successors from the cells below n. */
  lemma ChildBelowIsSlide(b: Board, p: int, n: int, i: int)
    requires BlankOnlyAt(b, p) && 0 <= n <= NumTiles
    requires 0 <= i < |NeighboursBelow(p, n)|
    ensures |ChildrenBelow(b, n)| == |NeighboursBelow(p, n)|
    ensures var q := NeighboursBelow(p, n)[i];
      0 <= q < NumTiles && q != p && ChildrenBelow(b, n)[i] == Slide(b, q, p - q)
  {
    ChildrenBelowSlides(b, p, n);
    SlidesBelowAt(b, p, n, i);
    NeighboursAdjacent(p, n);
    assert Adjacent(NeighboursBelow(p, n)[i], p);
  }

  /** Sliding the tile at another cell q into the blank at p. */
  lemma SlideFacts(b: Board, p: int, q: int)
    requires IsPermutation(b) && 0 <= p < NumTiles && b[p] == Blank && 0 <= q < NumTiles && q != p
    ensures var c := Slide(b, q, p - q);
      && c[p] == b[q] && c[q] == Blank
      && (forall k :: 0 <= k < NumTiles && k != p && k != q ==> c[k] == b[k])
      && IsPermutation(c)
  {
    OnlyBlank(b, p, q);
    SlidePreservesPermutation(b, q, p - q);
  }

  /** A corner blank has two neighbours, an edge blank three, the centre four. */
  lemma NeighbourCount(p: int)
    requires 0 <= p < NumTiles
    ensures p in {0, 2, 6, 8} ==> |Neighbours(p)| == 2
    ensures p in {1, 3, 5, 7} ==> |Neighbours(p)| == 3
    ensures p == 4 ==> |Neighbours(p)| == 4
  {
    if p in {0, 2, 6, 8} {
      CornerNeighbours(p);
    } else if p in {1, 3, 5, 7} {
      EdgeNeighbours(p);
    } else {
      assert Neighbours(4) == [1, 3, 5, 7];
    }
  }

  lemma CornerNeighbours(p: int)
    requires p in {0, 2, 6, 8}
    ensures |Neighbours(p)| == 2
  {
    if p == 0 { assert Neighbours(0) == [1, 3]; }
    else if p == 2 { assert Neighbours(2) == [1, 5]; }
    else if p == 6 { assert Neighbours(6) == [3, 7]; }
    else { assert Neighbours(8) == [5, 7]; }
  }

  lemma EdgeNeighbours(p: int)
    requires p in {1, 3, 5, 7}
    ensures |Neighbours(p)| == 3
  {
    if p == 1 { assert Neighbours(1) == [0, 2, 4]; }
    else if p == 3 { assert Neighbours(3) == [0, 4, 6]; }
    else if p == 5 { assert Neighbours(5) == [2, 4, 8]; }
    else { assert Neighbours(7) == [4, 6, 8]; }
  }

  /** The moves of one tile of a permutation give permutations. */
  lemma {:induction false} TriesArePermutations(b: Board, tile: int, i: int)
    requires IsPermutation(b) && 0 <= tile < NumTiles && 0 <= i <= 4 && b[tile] != Blank
    ensures forall c :: c in ChildrenByDirection(b, tile, i) ==> IsPermutation(c)
  {
    if i > 0 {
      TriesArePermutations(b, tile, i - 1);
      var d := SearchDirections(tile)[i - 1];
      SlidePreservesPermutation(b, tile, d);
      assert ChildrenByDirection(b, tile, i) == ChildrenByDirection(b, tile, i - 1) + TryMove(b, tile, d);
    }
  }

  /** The successors found among the first n tiles of a permutation are permutations. */
  lemma {:induction false} ChildrenBelowPermutations(b: Board, n: int)
    requires IsPermutation(b) && 0 <= n <= NumTiles
    ensures forall c :: c in ChildrenBelow(b, n) ==> IsPermutation(c)
  {
    if n > 0 {
      ChildrenBelowPermutations(b, n - 1);
      if b[n - 1] != Blank {
        TriesArePermutations(b, n - 1, 4);
      }
      assert ChildrenBelow(b, n) == ChildrenBelow(b, n - 1) + ChildrenAt(b, n - 1);
    }
  }

  /** Every successor of a permutation is a permutation. */
  lemma ChildrenArePermutations(b: Board)
    requires IsPermutation(b)
    ensures forall c :: c in Children(b) ==> IsPermutation(c)
  {
    ChildrenBelowPermutations(b, NumTiles);
  }

  /** b can be reached from a in exactly n moves. */
  predicate Reachable(a: Board, b: Board, n: nat)
    decreases n
  {
    if n == 0 then a == b else exists c :: c in Children(a) && Reachable(c, b, n - 1)
  }

  /** d is the fewest moves that take a to the goal. */
  ghost predicate Shortest(a: Board, d: nat) {
    Reachable(a, Goal, d) && forall m: nat :: Reachable(a, Goal, m) ==> d <= m
  }

  /** Every successor of a board in the set is in the set. */
  ghost predicate ClosedUnder(found: set<Board>) {
    forall a, c :: a in found && c in Children(a) ==> c in found
  }

  /** A set closed under moves holds every board reachable from its members. */
  lemma {:induction false} ReachableFound(found: set<Board>, a: Board, b: Board, n: nat)
    requires ClosedUnder(found) && a in found
    ensures Reachable(a, b, n) ==> b in found
    decreases n
  {
    if n > 0 && Reachable(a, b, n) {
      var c :| c in Children(a) && Reachable(c, b, n - 1);
      ReachableFound(found, c, b, n - 1);
    }
  }

  /** A path of n moves followed by one more move is a path of n + 1 moves. */
  lemma {:induction false} ReachableSnoc(a: Board, b: Board, c: Board, n: nat)
    requires Reachable(a, b, n) && c in Children(b)
    ensures Reachable(a, c, n + 1)
    decreases n
  {
    if n == 0 {
      assert Reachable(c, c, 0);
    } else {
      var d :| d in Children(a) && Reachable(d, b, n - 1);
      ReachableSnoc(d, b, c, n - 1);
    }
  }

  /** A path of n > 0 moves ends with a move from a board n - 1 moves away. */
  lemma {:induction false} ReachableLast(a: Board, c: Board, n: nat)
    requires n > 0 && Reachable(a, c, n)
    ensures exists b :: Reachable(a, b, n - 1) && c in Children(b)
    decreases n
  {
    var d :| d in Children(a) && Reachable(d, c, n - 1);
    if n == 1 {
      assert Reachable(a, a, 0);
    } else {
      ReachableLast(d, c, n - 1);
      var b :| Reachable(d, b, n - 2) && c in Children(b);
      assert Reachable(a, b, n - 1);
    }
  }

  /** Every successor differs from its parent, and no two successors are equal. */
  lemma ChildrenDistinct(b: Board)
    requires IsPermutation(b)
    ensures forall i :: 0 <= i < |Children(b)| ==> Children(b)[i] != b
    ensures forall i, j :: 0 <= i < j < |Children(b)| ==> Children(b)[i] != Children(b)[j]
  {
    var p := BlankIndex(b);
    BlankOnlyAtPermutation(b, p);
    ChildrenBelowSlides(b, p, NumTiles);
    SlidesBelowLength(b, p, NumTiles);
    var cs, qs := Children(b), Neighbours(p);
    forall i | 0 <= i < |cs|
      ensures cs[i] != b
    {
      ChildAt(b, p, i);
      assert cs[i][qs[i]] != b[qs[i]];
    }
    forall i, j | 0 <= i < j < |cs|
      ensures cs[i] != cs[j]
    {
      ChildAt(b, p, i);
      ChildAt(b, p, j);
      NeighboursAscending(p, NumTiles);
      assert cs[i][qs[i]] != cs[j][qs[i]];
    }
  }

  /** The goal has its blank in the last cell, so of all successors it can only
      be the last one generated. */
  lemma GoalIsLastChild(b: Board, i: int)
    requires IsPermutation(b) && 0 <= i < |Children(b)| && Children(b)[i] == Goal
    ensures i == |Children(b)| - 1
  {
    var p := BlankIndex(b);
    ChildrenSpec(b, p);
    var qs := Neighbours(p);
    assert Goal[qs[i]] == Blank;
    assert qs[i] == 8;
    assert qs[|qs| - 1] >= qs[i];
  }

  /** How many characters of s are the symbols of slots 0..n-1. */
  function SymbolsBelow(s: seq<char>, n: int): nat
    requires 0 <= n <= NumTiles
  {
    if n == 0 then 0 else SymbolsBelow(s, n - 1) + multiset(s)[SymbolOf(n - 1)]
  }

  lemma {:induction false} SymbolsBelowSnoc(s: seq<char>, x: char, n: int)
    requires 0 <= n <= NumTiles
    ensures SymbolsBelow(s + [x], n) == SymbolsBelow(s, n) + if IsSymbol(x) && SymbolIndex(x) < n then 1 else 0
  {
    if n > 0 {
      SymbolsBelowSnoc(s, x, n - 1);
      assert multiset(s + [x]) == multiset(s) + multiset{x};
      SymbolRoundTrip(n - 1);
    }
  }

  /** A sequence of symbols has as many characters as symbol occurrences. */
  lemma {:induction false} SymbolsBelowLength(s: seq<char>)
    requires forall i :: 0 <= i < |s| ==> IsSymbol(s[i])
    ensures SymbolsBelow(s, NumTiles) == |s|
  {
    if s == [] {
      NoSymbolsBelow(NumTiles);
    } else {
      var s', x := s[..|s| - 1], s[|s| - 1];
      assert s == s' + [x];
      SymbolsBelowLength(s');
      SymbolsBelowSnoc(s', x, NumTiles);
    }
  }

  lemma {:induction false} NoSymbolsBelow(n: int)
    requires 0 <= n <= NumTiles
    ensures SymbolsBelow([], n) == 0
  {
    if n > 0 {
      NoSymbolsBelow(n - 1);
    }
  }

  lemma {:induction false} SymbolsBelowOnes(s: seq<char>, n: int)
    requires IsPermutation(s) && 0 <= n <= NumTiles
    ensures SymbolsBelow(s, n) == n
  {
    if n > 0 {
      SymbolsBelowOnes(s, n - 1);
      assert IsSymbol(SymbolOf(n - 1));
    }
  }

  /** A permutation of the nine symbols holds only symbols, nine of them. */
  lemma PermutationLength(s: seq<char>)
    requires IsPermutation(s)
    ensures forall i :: 0 <= i < |s| ==> IsSymbol(s[i])
    ensures |s| == NumTiles
  {
    forall i | 0 <= i < |s|
      ensures IsSymbol(s[i])
    {
      assert s[i] in multiset(s);
    }
    SymbolsBelowLength(s);
    SymbolsBelowOnes(s, NumTiles);
  }

  /** A valid board holds nine distinct symbols. */
  lemma PermutationFacts(b: Board)
    requires IsPermutation(b)
    ensures forall i :: 0 <= i < NumTiles ==> IsSymbol(b[i])
    ensures forall i, j :: 0 <= i < j < NumTiles ==> b[i] != b[j]
  {
    PermutationLength(b);
    forall i, j | 0 <= i < j < NumTiles
      ensures b[i] != b[j]
    {
      assert b == b[..i] + [b[i]] + b[i + 1..j] + [b[j]] + b[j + 1..];
    }
  }

  /** A sequence is its prefix followed by the rest. */
  lemma SplitAt<T>(s: seq<T>, n: int)
    requires 0 <= n <= |s|
    ensures s[..n] + s[n..] == s
  {
  }

  /** Dropping the element appended last gives the sequence back. */
  lemma SnocPrefix<T>(s: seq<T>, x: T)
    ensures (s + [x])[..|s|] == s
  {
  }

  /** Dropping the last element of a concatenation drops it from its second part. */
  lemma ConcatDropLast<T>(xs: seq<T>, ys: seq<T>)
    requires ys != []
    ensures (xs + ys)[..|xs + ys| - 1] == xs + ys[..|ys| - 1]
  {
  }
}
