/** The uninformed search of the basic program: a queue of boards, each with
    the index of the board it came from, expanded front to back. New boards
    go to the tail unless they equal a board before the tail; the search
    stops when an appended board is the goal, and fails when the cursor runs
    past the tail. The linked list becomes a sequence, and following `next`
    k times from the head becomes indexing at k. */
module EightTile {
  import opened Board

  /** A stored board and the index of the board it was produced from. */
  datatype State = State(board: Board, parent: int)

  /** The store and the solution flag, as values. */
  datatype Queue = Queue(store: seq<State>, soln: bool)

  datatype CheckError = UnexpectedChoice

  datatype Outcome = Solved | Unsolvable | OutOfFuel

  /** The two kinds of check check_if_board performs. */
  const IsSolution: char := 's'
  const AlreadyExists: char := 'e'
  /** Only the board itself is compared with the goal. */
  const SolOnly: int := 1

  /** Some board among the first n states equals b. */
  predicate InPrefix(s: seq<State>, b: Board, n: int)
    requires 0 <= n <= |s|
  {
    exists i :: 0 <= i < n && s[i].board == b
  }

  /** Some board anywhere in the store equals b. */
  predicate InStore(s: seq<State>, b: Board) {
    exists i :: 0 <= i < |s| && s[i].board == b
  }

  /** How many of the first n states hold b. */
  function Matches(s: seq<State>, b: Board, n: int): nat
    requires 0 <= n <= |s|
  {
    if n == 0 then 0 else Matches(s, b, n - 1) + (if s[n - 1].board == b then 1 else 0)
  }

  /** A positive count means the board is there. */
  lemma {:induction false} MatchesFound(s: seq<State>, b: Board, n: int)
    requires 0 <= n <= |s|
    ensures Matches(s, b, n) > 0 <==> InPrefix(s, b, n)
  {
    if n > 0 {
      MatchesFound(s, b, n - 1);
      if s[n - 1].board != b && InPrefix(s, b, n) {
        var i :| 0 <= i < n && s[i].board == b;
        assert InPrefix(s, b, n - 1);
      }
    }
  }

  /** test_against: compares the first upperBound boards with `against` and
      counts the equal ones. */
  method TestAgainst(test: seq<State>, against: Board, upperBound: int) returns (matches: int)
    requires 0 <= upperBound <= |test|
    ensures matches == Matches(test, against, upperBound)
    ensures matches > 0 <==> InPrefix(test, against, upperBound)
  {
    matches := 0;
    var i := 0;
    while i < upperBound
      invariant 0 <= i <= upperBound
      invariant matches == Matches(test, against, i)
    {
      if test[i].board == against {
        matches := matches + 1;
      }
      i := i + 1;
    }
    MatchesFound(test, against, upperBound);
  }

  /** check_if_board: 's' tests the board against the goal, 'e' tests
      whether it is among the first `place` stored boards, and any other
      choice is fatal. */
  method CheckIfBoard(choice: char, current: State, start: seq<State>, place: int) returns (r: Result<bool, CheckError>)
    requires choice == AlreadyExists ==> 0 <= place <= |start|
    ensures r.Success? <==> choice == IsSolution || choice == AlreadyExists
    ensures choice == IsSolution ==> r == Success(current.board == Goal)
    ensures choice == AlreadyExists ==> r == Success(InPrefix(start, current.board, place))
  {
    if choice == IsSolution {
      var m := TestAgainst([current], Goal, SolOnly);
      assert [current][0] == current;
      r := Success(m > 0);
    } else if choice == AlreadyExists {
      var m := TestAgainst(start, current.board, place);
      r := Success(m > 0);
    } else {
      r := Failure(UnexpectedChoice);
    }
  }

  /** create_next_board once the move is made: the candidate is compared with
      every stored board except the tail; if none equals it, it is appended
      with its parent and the solution flag becomes whether it is the goal. */
  function AddChild(q: Queue, child: Board, parent: int): Queue
    requires |q.store| >= 1
  {
    if InPrefix(q.store, child, |q.store| - 1) then q
    else Queue(q.store + [State(child, parent)], child == Goal)
  }

  /** The candidates of one expansion offered one after another. */
  function AddAll(q: Queue, cs: seq<Board>, parent: int): (r: Queue)
    requires |q.store| >= 1
    ensures |q.store| <= |r.store| <= |q.store| + |cs|
  {
    if cs == [] then q
    else AddChild(AddAll(q, cs[..|cs| - 1], parent), cs[|cs| - 1], parent)
  }

  /** One more cell of define_options_and_explore: a tile offers its four
      directions after the cells before it; the blank offers nothing. */
  lemma AddAllCell(q: Queue, b: Board, tile: int, parent: int)
    requires |q.store| >= 1 && 0 <= tile < NumTiles
    ensures var before := AddAll(q, ChildrenBelow(b, tile), parent);
      AddAll(q, ChildrenBelow(b, tile + 1), parent) ==
        if b[tile] != Blank then AddAll(before, ChildrenByDirection(b, tile, 4), parent) else before
  {
    var before := ChildrenBelow(b, tile);
    assert ChildrenBelow(b, tile + 1) == before + ChildrenAt(b, tile);
    if b[tile] != Blank {
      AddAllConcat(q, before, ChildrenAt(b, tile), parent);
    } else {
      assert before + [] == before;
    }
  }

  /** Offering xs and then ys is offering xs + ys. */
  lemma {:induction false} AddAllConcat(q: Queue, xs: seq<Board>, ys: seq<Board>, parent: int)
    requires |q.store| >= 1
    ensures AddAll(q, xs + ys, parent) == AddAll(AddAll(q, xs, parent), ys, parent)
  {
    if ys != [] {
      var ys' := ys[..|ys| - 1];
      ConcatDropLast(xs, ys);
      AddAllConcat(q, xs, ys', parent);
    } else {
      assert xs + ys == xs;
    }
  }

  /** Offering one more candidate. */
  lemma AddAllSnoc(q: Queue, cs: seq<Board>, c: Board, parent: int)
    requires |q.store| >= 1
    ensures AddAll(q, cs + [c], parent) == AddChild(AddAll(q, cs, parent), c, parent)
  {
    SnocPrefix(cs, c);
  }

  /** One more direction of search_possible_directions: a move onto the
      blank offers the moved board, any other direction offers nothing. */
  lemma OfferDirection(q0: Queue, b: Board, tile: int, i: int, index: int)
    requires |q0.store| >= 1 && 0 <= tile < NumTiles && 0 <= i < 4 && b[tile] != Blank
    ensures var d := SearchDirections(tile)[i];
            var q := AddAll(q0, ChildrenByDirection(b, tile, i), index);
            AddAll(q0, ChildrenByDirection(b, tile, i + 1), index) ==
              if b[tile + d] == Blank then AddChild(q, Slide(b, tile, d), index) else q
  {
    var d := SearchDirections(tile)[i];
    var before := ChildrenByDirection(b, tile, i);
    var offered := TryMove(b, tile, d);
    assert ChildrenByDirection(b, tile, i + 1) == before + offered;
    if b[tile + d] == Blank {
      assert d != 0;
      assert offered == [Slide(b, tile, d)];
      AddAllSnoc(q0, before, Slide(b, tile, d), index);
    } else {
      assert before + offered == before;
    }
  }

  /** Stored boards are never moved or changed. */
  lemma {:induction false} AddAllPrefix(q: Queue, cs: seq<Board>, parent: int)
    requires |q.store| >= 1
    ensures AddAll(q, cs, parent).store[..|q.store|] == q.store
  {
    if cs != [] {
      AddAllPrefix(q, cs[..|cs| - 1], parent);
    }
  }

  /** After the offers, every candidate is somewhere in the store. */
  lemma {:induction false} AddAllStored(q: Queue, cs: seq<Board>, parent: int)
    requires |q.store| >= 1
    ensures forall c :: c in cs ==> InStore(AddAll(q, cs, parent).store, c)
  {
    if cs != [] {
      var cs', c := cs[..|cs| - 1], cs[|cs| - 1];
      AddAllStored(q, cs', parent);
      var q' := AddAll(q, cs', parent);
      var r := AddChild(q', c, parent);
      assert r.store[..|q'.store|] == q'.store;
      forall x | x in cs
        ensures InStore(r.store, x)
      {
        if x == c {
          if InPrefix(q'.store, c, |q'.store| - 1) {
            var i :| 0 <= i < |q'.store| - 1 && q'.store[i].board == c;
            assert r.store[i].board == c;
          } else {
            assert r.store[|r.store| - 1].board == c;
          }
        } else {
          assert x in cs';
          var i :| 0 <= i < |q'.store| && q'.store[i].board == x;
          assert r.store[i].board == x;
        }
      }
    }
  }

  /** Some board after the root is the goal. */
  predicate GoalAppended(s: seq<State>) {
    exists i :: 1 <= i < |s| && s[i].board == Goal
  }

  /** Offering boards none of which is the goal appends no goal and leaves
      the flag down. */
  lemma {:induction false} AddAllNoGoal(q: Queue, cs: seq<Board>, parent: int)
    requires |q.store| >= 1 && !q.soln && !GoalAppended(q.store)
    requires Goal !in cs
    ensures !AddAll(q, cs, parent).soln && !GoalAppended(AddAll(q, cs, parent).store)
  {
    if cs != [] {
      var cs', c := cs[..|cs| - 1], cs[|cs| - 1];
      assert Goal !in cs';
      AddAllNoGoal(q, cs', parent);
      var q' := AddAll(q, cs', parent);
      if !InPrefix(q'.store, c, |q'.store| - 1) {
        var s := q'.store + [State(c, parent)];
        forall i | 1 <= i < |s|
          ensures s[i].board != Goal
        {
          if i < |q'.store| {
            assert s[i] == q'.store[i];
          }
        }
      }
    }
  }

  /** When the goal can only be the last candidate, the flag left after the
      offers is up exactly when a goal was appended: a later append cannot
      overwrite it. */
  lemma AddAllSoln(q: Queue, cs: seq<Board>, parent: int)
    requires |q.store| >= 1 && !q.soln && !GoalAppended(q.store)
    requires forall i :: 0 <= i < |cs| - 1 ==> cs[i] != Goal
    ensures AddAll(q, cs, parent).soln <==> GoalAppended(AddAll(q, cs, parent).store)
  {
    if cs != [] {
      var cs', c := cs[..|cs| - 1], cs[|cs| - 1];
      assert Goal !in cs' by {
        forall i | 0 <= i < |cs'|
          ensures cs'[i] != Goal
        {
          assert cs'[i] == cs[i];
        }
      }
      AddAllNoGoal(q, cs', parent);
      var q' := AddAll(q, cs', parent);
      if !InPrefix(q'.store, c, |q'.store| - 1) {
        var s := q'.store + [State(c, parent)];
        assert s[|s| - 1].board == c;
        if c != Goal {
          forall i | 1 <= i < |s|
            ensures s[i].board != Goal
          {
            if i < |q'.store| {
              assert s[i] == q'.store[i];
            }
          }
        }
      }
    }
  }

  /** With the goal at the root, no candidate equal to the goal is ever
      appended once a second board is stored, since the root is always
      compared; and the first expansion of the goal cannot offer the goal. */
  lemma {:induction false} AddAllGoalRoot(q: Queue, cs: seq<Board>, parent: int)
    requires |q.store| >= 1 && q.store[0].board == Goal && !GoalAppended(q.store)
    requires |q.store| == 1 ==> Goal !in cs
    ensures !GoalAppended(AddAll(q, cs, parent).store)
  {
    if cs != [] {
      var cs', c := cs[..|cs| - 1], cs[|cs| - 1];
      assert |q.store| == 1 ==> Goal !in cs';
      AddAllGoalRoot(q, cs', parent);
      AddAllPrefix(q, cs', parent);
      var q' := AddAll(q, cs', parent);
      assert q'.store[0] == q.store[0];
      if c == Goal && |q'.store| >= 2 {
        assert InPrefix(q'.store, c, |q'.store| - 1);
      } else if !InPrefix(q'.store, c, |q'.store| - 1) {
        var s := q'.store + [State(c, parent)];
        forall i | 1 <= i < |s|
          ensures s[i].board != Goal
        {
          if i < |q'.store| {
            assert s[i] == q'.store[i];
          }
        }
      }
    }
  }

  /** The goal is the tail's board and no other stored board's. */
  predicate GoalOnlyAtTail(s: seq<State>) {
    |s| >= 1 && s[|s| - 1].board == Goal && forall j :: 0 <= j < |s| - 1 ==> s[j].board != Goal
  }

  /** When only the last candidate can be the goal and the store holds no
      goal, a raised flag means the goal was appended last and is stored
      nowhere else. */
  lemma AddAllGoalAtTail(q: Queue, cs: seq<Board>, parent: int)
    requires |q.store| >= 1 && !q.soln && !GoalAppended(q.store) && q.store[0].board != Goal
    requires forall i :: 0 <= i < |cs| - 1 ==> cs[i] != Goal
    ensures AddAll(q, cs, parent).soln ==> GoalOnlyAtTail(AddAll(q, cs, parent).store)
  {
    if cs != [] {
      var cs', c := cs[..|cs| - 1], cs[|cs| - 1];
      assert Goal !in cs' by {
        forall i | 0 <= i < |cs'|
          ensures cs'[i] != Goal
        {
          assert cs'[i] == cs[i];
        }
      }
      AddAllNoGoal(q, cs', parent);
      AddAllPrefix(q, cs', parent);
      var q' := AddAll(q, cs', parent);
      assert q'.store[0] == q.store[0];
      if !InPrefix(q'.store, c, |q'.store| - 1) && c == Goal {
        var t := q'.store + [State(c, parent)];
        forall j | 0 <= j < |t| - 1
          ensures t[j].board != Goal
        {
          assert t[j] == q'.store[j];
        }
      }
    }
  }

  /** Two stored states with the same board are next to each other: the only
      duplicate the scan lets through is a copy of the tail. */
  predicate DuplicatesAdjacent(s: seq<State>) {
    forall i, j :: 0 <= i < j < |s| && s[i].board == s[j].board ==> j == i + 1
  }

  /** Every state after the root names an earlier state as its parent. */
  predicate ParentsBefore(s: seq<State>) {
    forall i :: 1 <= i < |s| ==> 0 <= s[i].parent < i
  }

  /** Every state after the root holds a board one move away from the board
      of its parent. */
  predicate MovesFromParents(s: seq<State>)
    requires ParentsBefore(s)
  {
    forall i :: 1 <= i < |s| ==> MovedFrom(s, i)
  }

  /** The board at i is a child of its parent's board. */
  predicate MovedFrom(s: seq<State>, i: int)
    requires ParentsBefore(s) && 1 <= i < |s|
  {
    s[i].board in Children(s[s[i].parent].board)
  }

  /** The store's invariant: the root first, every other state's parent
      before it and one move away, every board a permutation, duplicates
      only next to each other, and the flag up only with the goal at the
      tail. */
  predicate Wellformed(q: Queue) {
    && |q.store| >= 1
    && q.store[0].parent == RootNode
    && ParentsBefore(q.store)
    && MovesFromParents(q.store)
    && (forall i :: 0 <= i < |q.store| ==> IsPermutation(q.store[i].board))
    && DuplicatesAdjacent(q.store)
    && (q.soln ==> q.store[|q.store| - 1].board == Goal)
  }

  /** One offer of a child of a stored board keeps the invariant. */
  lemma AddChildWellformed(q: Queue, child: Board, parent: int)
    requires Wellformed(q) && 0 <= parent < |q.store|
    requires child in Children(q.store[parent].board)
    ensures Wellformed(AddChild(q, child, parent))
  {
    if !InPrefix(q.store, child, |q.store| - 1) {
      ChildrenArePermutations(q.store[parent].board);
      AppendWellformed(q, child, parent);
    }
  }

  /** Appending a new child, a permutation, keeps the invariant. */
  lemma AppendWellformed(q: Queue, child: Board, parent: int)
    requires Wellformed(q) && 0 <= parent < |q.store| && IsPermutation(child)
    requires child in Children(q.store[parent].board) && !InPrefix(q.store, child, |q.store| - 1)
    ensures Wellformed(Queue(q.store + [State(child, parent)], child == Goal))
  {
    var s := q.store + [State(child, parent)];
    AppendPermutations(q.store, child, parent);
    AppendDuplicates(q.store, child, parent);
    AppendMoves(q.store, child, parent);
    assert s[0] == q.store[0];
  }

  /** Appending a permutation to boards that are all permutations. */
  lemma AppendPermutations(s: seq<State>, child: Board, parent: int)
    requires forall i :: 0 <= i < |s| ==> IsPermutation(s[i].board)
    requires IsPermutation(child)
    ensures forall i :: 0 <= i < |s| + 1 ==> IsPermutation((s + [State(child, parent)])[i].board)
  {
    var t := s + [State(child, parent)];
    forall i | 0 <= i < |t|
      ensures IsPermutation(t[i].board)
    {
      if i < |s| {
        assert t[i] == s[i];
      }
    }
  }

  /** Appending a board equal to none before the tail lets no new duplicate
      through except a copy of the tail. */
  lemma AppendDuplicates(s: seq<State>, child: Board, parent: int)
    requires |s| >= 1 && DuplicatesAdjacent(s) && !InPrefix(s, child, |s| - 1)
    ensures DuplicatesAdjacent(s + [State(child, parent)])
  {
    var t := s + [State(child, parent)];
    forall i, j | 0 <= i < j < |t| && t[i].board == t[j].board
      ensures j == i + 1
    {
      if j < |s| {
        assert t[i] == s[i] && t[j] == s[j];
      } else {
        assert t[i] == s[i];
      }
    }
  }

  /** Appending a child of a stored board, with that board as its parent,
      keeps every parent before its child and one move away. */
  lemma AppendMoves(s: seq<State>, child: Board, parent: int)
    requires ParentsBefore(s) && MovesFromParents(s) && 0 <= parent < |s|
    requires child in Children(s[parent].board)
    ensures ParentsBefore(s + [State(child, parent)]) && MovesFromParents(s + [State(child, parent)])
  {
    var t := s + [State(child, parent)];
    assert ParentsBefore(t) by {
      forall i | 1 <= i < |t|
        ensures 0 <= t[i].parent < i
      {
        if i < |s| {
          assert t[i] == s[i];
        }
      }
    }
    forall i | 1 <= i < |t|
      ensures MovedFrom(t, i)
    {
      if i < |s| {
        assert MovedFrom(s, i);
        assert t[i] == s[i] && t[s[i].parent] == s[s[i].parent];
      } else {
        assert t[parent] == s[parent];
      }
    }
  }

  /** Offering children of a stored board on its behalf keeps the invariant. */
  lemma {:induction false} AddAllWellformed(q: Queue, cs: seq<Board>, parent: int)
    requires Wellformed(q) && 0 <= parent < |q.store|
    requires forall c :: c in cs ==> c in Children(q.store[parent].board)
    ensures Wellformed(AddAll(q, cs, parent))
  {
    if cs != [] {
      var cs' := cs[..|cs| - 1];
      assert forall c :: c in cs' ==> c in cs;
      AddAllWellformed(q, cs', parent);
      AddAllPrefix(q, cs', parent);
      var q' := AddAll(q, cs', parent);
      assert q'.store[parent] == q.store[parent];
      AddChildWellformed(q', cs[|cs| - 1], parent);
    }
  }

  /** Every child of the first n stored boards is stored. */
  predicate ClosedBelow(s: seq<State>, n: int)
    requires 0 <= n <= |s|
  {
    forall k, c :: 0 <= k < n && c in Children(s[k].board) ==> InStore(s, c)
  }

  /** Growing the store keeps the boards already found. */
  lemma ClosedBelowGrows(s: seq<State>, t: seq<State>, n: int)
    requires 0 <= n <= |s| <= |t| && t[..|s|] == s
    requires ClosedBelow(s, n)
    ensures ClosedBelow(t, n)
  {
    forall k, c | 0 <= k < n && c in Children(t[k].board)
      ensures InStore(t, c)
    {
      assert t[k] == s[k];
      assert c in Children(s[k].board);
      assert InStore(s, c);
      var i :| 0 <= i < |s| && s[i].board == c;
      assert t[i] == s[i];
    }
  }

  /** The boards of the store, as a set. */
  ghost function Found(s: seq<State>): set<Board> {
    set i | 0 <= i < |s| :: s[i].board
  }

  /** The verdict "unsolvable" is sound: when every stored board has been
      expanded and no goal was appended, the goal cannot be reached from a
      root that is not itself the goal, in any number of moves. */
  lemma UnsolvableSound(s: seq<State>, n: nat)
    requires |s| >= 1 && ClosedBelow(s, |s|) && !GoalAppended(s) && s[0].board != Goal
    ensures !Reachable(s[0].board, Goal, n)
  {
    var found := Found(s);
    forall a, c | a in found && c in Children(a)
      ensures c in found
    {
      var k :| 0 <= k < |s| && s[k].board == a;
      assert c in Children(s[k].board);
      assert InStore(s, c);
      var i :| 0 <= i < |s| && s[i].board == c;
    }
    assert s[0].board in found;
    ReachableFound(found, s[0].board, Goal, n);
    assert forall i :: 0 <= i < |s| ==> s[i].board != Goal;
  }

  /** One expansion of the board at `index`, as find_optimal_solution sees
      it: stored boards stay, every child of that board is now stored, the
      flag is up exactly when a goal was appended, and a goal root is never
      appended again. */
  lemma Expansion(q: Queue, index: int)
    requires Wellformed(q) && 0 <= index < |q.store| && !q.soln && !GoalAppended(q.store)
    requires ClosedBelow(q.store, index)
    ensures var r := AddAll(q, Children(q.store[index].board), index);
            && r.store[..|q.store|] == q.store
            && ClosedBelow(r.store, index + 1)
            && (r.soln <==> GoalAppended(r.store))
            && (q.store[0].board == Goal ==> !GoalAppended(r.store))
            && (r.soln && q.store[0].board != Goal ==> GoalOnlyAtTail(r.store))
            && Wellformed(r)
  {
    var b := q.store[index].board;
    var cs := Children(b);
    var r := AddAll(q, cs, index);
    AddAllPrefix(q, cs, index);
    AddAllStored(q, cs, index);
    ClosedBelowGrows(q.store, r.store, index);
    assert r.store[index] == q.store[index];
    forall i | 0 <= i < |cs| - 1
      ensures cs[i] != Goal
    {
      if cs[i] == Goal {
        GoalIsLastChild(b, i);
      }
    }
    AddAllSoln(q, cs, index);
    if q.store[0].board != Goal {
      AddAllGoalAtTail(q, cs, index);
    }
    AddAllWellformed(q, cs, index);
    if q.store[0].board == Goal {
      if |q.store| == 1 {
        ChildrenDistinct(b);
      }
      AddAllGoalRoot(q, cs, index);
    }
  }

  /** How many moves the parent links put a stored board from the root. */
  function Depth(s: seq<State>, i: int): nat
    requires ParentsBefore(s) && 0 <= i < |s|
    decreases i
  {
    if i == 0 then 0 else Depth(s, s[i].parent) + 1
  }

  /** The breadth-first shape of the store once its first n boards are
      expanded: every parent is among them, and depth never decreases along
      the store. */
  predicate Layered(s: seq<State>, n: int)
    requires ParentsBefore(s)
  {
    && (forall i :: 1 <= i < |s| ==> s[i].parent < n)
    && (forall i :: 1 <= i < |s| ==> NoShallower(s, i))
  }

  /** The board at i is at least as deep as the one before it. */
  predicate NoShallower(s: seq<State>, i: int)
    requires ParentsBefore(s) && 1 <= i < |s|
  {
    Depth(s, i - 1) <= Depth(s, i)
  }

  /** Some stored board equal to c lies at most d moves from the root. */
  predicate StoredWithin(s: seq<State>, c: Board, d: int)
    requires ParentsBefore(s)
  {
    exists j :: 0 <= j < |s| && s[j].board == c && Depth(s, j) <= d
  }

  /** Every child of the first n stored boards is stored at most one move
      deeper than that board. */
  predicate ClosedNear(s: seq<State>, n: int)
    requires ParentsBefore(s) && 0 <= n <= |s|
  {
    forall k, c :: 0 <= k < n && c in Children(s[k].board) ==> StoredWithin(s, c, Depth(s, k) + 1)
  }

  /** Depth along the parent links does not depend on what follows. */
  lemma {:induction false} DepthPrefix(s: seq<State>, t: seq<State>, i: int)
    requires ParentsBefore(s) && ParentsBefore(t) && |s| <= |t| && t[..|s|] == s && 0 <= i < |s|
    ensures Depth(t, i) == Depth(s, i)
    decreases i
  {
    if i > 0 {
      assert t[i] == s[i];
      DepthPrefix(s, t, s[i].parent);
    }
  }

  /** In a layered store a later board is never shallower. */
  lemma {:induction false} DepthMonotone(s: seq<State>, n: int, i: int, j: int)
    requires ParentsBefore(s) && Layered(s, n) && 0 <= i < |s| && 0 <= j < |s|
    ensures i <= j ==> Depth(s, i) <= Depth(s, j)
    decreases j - i
  {
    if i < j {
      DepthMonotone(s, n, i, j - 1);
      assert NoShallower(s, j);
    }
  }

  /** Appending a child of the board at `parent`, when the tail is at most
      one move deeper than that board, keeps the store layered with that
      board expanded, and the new tail is exactly one move deeper. */
  lemma AppendLayered(s: seq<State>, c: Board, parent: int)
    requires |s| >= 1 && ParentsBefore(s) && 0 <= parent < |s|
    requires Layered(s, parent + 1)
    requires Depth(s, |s| - 1) <= Depth(s, parent) + 1
    ensures var t := s + [State(c, parent)];
      && ParentsBefore(t) && Layered(t, parent + 1)
      && Depth(t, parent) == Depth(s, parent)
      && Depth(t, |t| - 1) == Depth(t, parent) + 1
  {
    var t := s + [State(c, parent)];
    assert t[..|s|] == s;
    assert ParentsBefore(t) by {
      forall i | 1 <= i < |t|
        ensures 0 <= t[i].parent < i
      {
        if i < |s| {
          assert t[i] == s[i];
        }
      }
    }
    DepthPrefix(s, t, parent);
    DepthPrefix(s, t, |s| - 1);
    forall i | 1 <= i < |t|
      ensures t[i].parent < parent + 1 && NoShallower(t, i)
    {
      if i < |s| {
        assert t[i] == s[i];
        assert NoShallower(s, i);
        DepthPrefix(s, t, i - 1);
        DepthPrefix(s, t, i);
      }
    }
  }

  /** The offers on behalf of the board at `parent` keep the store layered
      with that board expanded: each appended state is one move deeper than
      its parent, and the tail stays at most one move deeper. */
  lemma {:induction false} AddAllLayered(q: Queue, cs: seq<Board>, parent: int)
    requires |q.store| >= 1 && ParentsBefore(q.store) && 0 <= parent < |q.store|
    requires Layered(q.store, parent + 1)
    requires Depth(q.store, |q.store| - 1) <= Depth(q.store, parent) + 1
    ensures var r := AddAll(q, cs, parent).store;
      && ParentsBefore(r) && Layered(r, parent + 1)
      && Depth(r, parent) == Depth(q.store, parent)
      && Depth(r, |r| - 1) <= Depth(r, parent) + 1
  {
    if cs != [] {
      var cs', c := cs[..|cs| - 1], cs[|cs| - 1];
      AddAllLayered(q, cs', parent);
      AddAllLast(q, cs, parent);
      AddChildLayered(AddAll(q, cs', parent), c, parent);
    }
  }

  /** AddAll offers the last candidate after the others. */
  lemma AddAllLast(q: Queue, cs: seq<Board>, parent: int)
    requires |q.store| >= 1 && cs != []
    ensures AddAll(q, cs, parent) == AddChild(AddAll(q, cs[..|cs| - 1], parent), cs[|cs| - 1], parent)
  {
  }

  /** The step of AddAllLayered: one more offer. */
  lemma AddChildLayered(q: Queue, c: Board, parent: int)
    requires |q.store| >= 1 && ParentsBefore(q.store) && 0 <= parent < |q.store|
    requires Layered(q.store, parent + 1)
    requires Depth(q.store, |q.store| - 1) <= Depth(q.store, parent) + 1
    ensures var r := AddChild(q, c, parent).store;
      && ParentsBefore(r) && Layered(r, parent + 1)
      && Depth(r, parent) == Depth(q.store, parent)
      && Depth(r, |r| - 1) <= Depth(r, parent) + 1
  {
    if !InPrefix(q.store, c, |q.store| - 1) {
      AppendLayered(q.store, c, parent);
    }
  }

  /** A board stored within depth d stays so when the store grows. */
  lemma StoredWithinGrows(s: seq<State>, t: seq<State>, c: Board, d: int)
    requires ParentsBefore(s) && ParentsBefore(t) && |s| <= |t| && t[..|s|] == s
    requires StoredWithin(s, c, d)
    ensures StoredWithin(t, c, d)
  {
    var j :| 0 <= j < |s| && s[j].board == c && Depth(s, j) <= d;
    DepthPrefix(s, t, j);
    assert t[j] == s[j];
  }

  /** In a layered store whose tail is within d moves, every stored board is. */
  lemma StoredBelowTail(s: seq<State>, n: int, c: Board, d: int)
    requires ParentsBefore(s) && Layered(s, n) && InStore(s, c)
    requires Depth(s, |s| - 1) <= d
    ensures StoredWithin(s, c, d)
  {
    var j :| 0 <= j < |s| && s[j].board == c;
    DepthMonotone(s, n, j, |s| - 1);
  }

  /** After the board at `index` is expanded into a grown store whose tail
      is at most one move deeper than it, the store is closed one move deep
      one board further. */
  lemma ClosedNearGrows(s: seq<State>, r: seq<State>, index: int)
    requires ParentsBefore(s) && ParentsBefore(r) && |s| <= |r| && r[..|s|] == s
    requires 0 <= index < |s| && ClosedNear(s, index) && Layered(r, index + 1)
    requires Depth(r, |r| - 1) <= Depth(r, index) + 1
    requires forall c :: c in Children(s[index].board) ==> InStore(r, c)
    ensures ClosedNear(r, index + 1)
  {
    forall k, c | 0 <= k < index + 1 && c in Children(r[k].board)
      ensures StoredWithin(r, c, Depth(r, k) + 1)
    {
      assert r[k] == s[k];
      DepthPrefix(s, r, k);
      if k < index {
        StoredWithinGrows(s, r, c, Depth(s, k) + 1);
      } else {
        StoredBelowTail(r, index + 1, c, Depth(r, index) + 1);
      }
    }
  }

  /** One expansion keeps the store breadth-first: with the board at `index`
      expanded too, the store stays layered and every child of the expanded
      boards is stored at most one move deeper. */
  lemma ExpansionLayered(q: Queue, index: int)
    requires |q.store| >= 1 && ParentsBefore(q.store) && 0 <= index < |q.store|
    requires Layered(q.store, index) && ClosedNear(q.store, index)
    ensures var r := AddAll(q, Children(q.store[index].board), index).store;
      && ParentsBefore(r) && Layered(r, index + 1) && ClosedNear(r, index + 1)
  {
    var s := q.store;
    var cs := Children(s[index].board);
    if |s| > 1 {
      DepthMonotone(s, index, s[|s| - 1].parent, index);
    }
    AddAllLayered(q, cs, index);
    AddAllPrefix(q, cs, index);
    AddAllStored(q, cs, index);
    var r := AddAll(q, cs, index).store;
    ClosedNearGrows(s, r, index);
  }

  /** Following the parent links back from a stored board is a path of
      moves from the root exactly as long as its depth. */
  lemma {:induction false} PathReachable(s: seq<State>, i: int)
    requires ParentsBefore(s) && MovesFromParents(s) && 0 <= i < |s|
    ensures Reachable(s[0].board, s[i].board, Depth(s, i))
    decreases i
  {
    if i == 0 {
      assert Reachable(s[0].board, s[0].board, 0);
    } else {
      var p := s[i].parent;
      assert MovedFrom(s, i);
      PathReachable(s, p);
      ReachableSnoc(s[0].board, s[p].board, s[i].board, Depth(s, p));
    }
  }

  /** Every board reachable from the root in m moves, for m up to the depth
      of the last expanded board, is stored at most m moves deep. */
  lemma {:induction false} ReachedWithin(s: seq<State>, n: int, b: Board, m: nat)
    requires ParentsBefore(s) && 1 <= n <= |s| && Layered(s, n) && ClosedNear(s, n)
    requires m <= Depth(s, n - 1) && Reachable(s[0].board, b, m)
    ensures StoredWithin(s, b, m)
    decreases m
  {
    if m == 0 {
      assert Depth(s, 0) == 0;
    } else {
      ReachableLast(s[0].board, b, m);
      var a :| Reachable(s[0].board, a, m - 1) && b in Children(a);
      ReachedWithin(s, n, a, m - 1);
      StoredChildWithin(s, n, a, b, m - 1);
    }
  }

  /** A child of a board stored within d moves, d below the depth of the
      last expanded board, is stored within d + 1 moves. */
  lemma StoredChildWithin(s: seq<State>, n: int, a: Board, b: Board, d: int)
    requires ParentsBefore(s) && 1 <= n <= |s| && Layered(s, n) && ClosedNear(s, n)
    requires d < Depth(s, n - 1) && StoredWithin(s, a, d) && b in Children(a)
    ensures StoredWithin(s, b, d + 1)
  {
    var j :| 0 <= j < |s| && s[j].board == a && Depth(s, j) <= d;
    DepthMonotone(s, n, n - 1, j);
    assert j < n;
    ClosedNearAt(s, n, j, b);
  }

  /** One instance of ClosedNear. */
  lemma ClosedNearAt(s: seq<State>, n: int, k: int, c: Board)
    requires ParentsBefore(s) && 0 <= k < n <= |s| && ClosedNear(s, n)
    requires c in Children(s[k].board)
    ensures StoredWithin(s, c, Depth(s, k) + 1)
  {
  }

  /** Breadth-first optimality: when the goal is stored only at the tail of
      a layered store closed one move deep over its first n boards, no path
      from the root reaches the goal in fewer moves than the tail's depth. */
  lemma ShortestFound(s: seq<State>, n: int, m: nat)
    requires ParentsBefore(s) && 1 <= n <= |s| && Layered(s, n) && ClosedNear(s, n)
    requires GoalOnlyAtTail(s) && Reachable(s[0].board, Goal, m)
    ensures Depth(s, |s| - 1) <= m
  {
    var g := |s| - 1;
    if m <= Depth(s, n - 1) {
      ReachedWithin(s, n, Goal, m);
    } else if g > 0 {
      DepthMonotone(s, n, s[g].parent, n - 1);
    }
  }

  /** What holds between expansions of find_optimal_solution once the first
      n boards are expanded, for the count k that equals n. It is stated
      through ExploredUpTo so that the search loop carries it as one fact
      and only the lemmas below open it. */
  predicate Explored(q: Queue, n: int) {
    forall k :: k == n ==> ExploredUpTo(q, k)
  }

  /** The invariant; every child of the first n boards is stored, at most
      one move deeper; the store is layered; the flag is up exactly when a
      goal was appended; a goal root is never appended again; and with the
      flag up the goal is stored at the tail only. */
  predicate ExploredUpTo(q: Queue, n: int) {
    && Wellformed(q) && 0 <= n <= |q.store|
    && ClosedBelow(q.store, n)
    && Layered(q.store, n) && ClosedNear(q.store, n)
    && (q.soln <==> GoalAppended(q.store))
    && (q.store[0].board == Goal ==> !GoalAppended(q.store))
    && (q.soln ==> n >= 1 && GoalOnlyAtTail(q.store))
  }

  /** Before the first expansion a root-only store with the flag down is
      explored up to nothing. */
  lemma ExploredStart(q: Queue)
    requires Wellformed(q) && |q.store| == 1
    ensures Explored(Queue(q.store, false), 0)
  {
    assert ExploredUpTo(Queue(q.store, false), 0);
  }

  /** Expanding the board at the cursor when the flag is down moves the
      explored prefix on by one and keeps what was stored; the flag can
      only be up with the tail past the cursor. */
  lemma ExploredStep(q: Queue, index: int)
    requires Explored(q, index) && 0 <= index < |q.store| && !q.soln
    ensures var r := AddAll(q, Children(q.store[index].board), index);
      && r.store[..|q.store|] == q.store
      && Explored(r, index + 1)
      && (r.soln ==> index + 1 < |r.store|)
  {
    assert ExploredUpTo(q, index);
    Expansion(q, index);
    ExpansionLayered(q, index);
    var r := AddAll(q, Children(q.store[index].board), index);
    ExploredNext(q, r, index);
  }

  /** ExploredStep for any store r that keeps q's as its prefix and has
      what Expansion and ExpansionLayered establish of an expansion. */
  lemma ExploredNext(q: Queue, r: Queue, index: int)
    requires ExploredUpTo(q, index) && 0 <= index < |q.store| && !q.soln
    requires |q.store| <= |r.store| && r.store[..|q.store|] == q.store && Wellformed(r)
    requires ClosedBelow(r.store, index + 1)
    requires (r.soln <==> GoalAppended(r.store))
    requires q.store[0].board == Goal ==> !GoalAppended(r.store)
    requires r.soln && q.store[0].board != Goal ==> GoalOnlyAtTail(r.store)
    requires Layered(r.store, index + 1) && ClosedNear(r.store, index + 1)
    ensures Explored(r, index + 1) && (r.soln ==> index + 1 < |r.store|)
  {
    assert forall j :: 0 <= j < |q.store| ==> r.store[j] == q.store[j];
    assert ExploredUpTo(r, index + 1);
  }

  /** An explored store satisfies the invariant. */
  lemma ExploredWellformed(q: Queue, n: int)
    requires Explored(q, n)
    ensures Wellformed(q) && 0 <= n <= |q.store|
  {
    assert ExploredUpTo(q, n);
  }

  /** In a layered store closed one move deep whose goal is at the tail
      only, the tail's depth is the fewest moves from the root to the goal. */
  lemma ShortestAtTail(s: seq<State>, n: int)
    requires ParentsBefore(s) && MovesFromParents(s) && 1 <= n <= |s|
    requires Layered(s, n) && ClosedNear(s, n) && GoalOnlyAtTail(s)
    ensures Shortest(s[0].board, Depth(s, |s| - 1))
  {
    PathReachable(s, |s| - 1);
    forall m: nat | Reachable(s[0].board, Goal, m)
      ensures Depth(s, |s| - 1) <= m
    {
      ShortestFound(s, n, m);
    }
  }

  /** The verdict "solved" is sound and optimal: with the flag up, the goal
      sits at the tail, its parent links are a path of moves from the root
      as long as its depth, and no path from the root reaches the goal in
      fewer moves. */
  lemma SolvedOptimal(q: Queue, n: int)
    requires Explored(q, n) && q.soln
    ensures Wellformed(q) && GoalAppended(q.store)
    ensures q.store[0].board != Goal && q.store[|q.store| - 1].board == Goal
    ensures Shortest(q.store[0].board, Depth(q.store, |q.store| - 1))
  {
    assert ExploredUpTo(q, n);
    ShortestAtTail(q.store, n);
  }

  /** The verdict "unsolvable": with every stored board expanded and the
      flag down, no goal was appended and, from a root that is not the goal,
      the goal is unreachable. */
  lemma ExhaustedUnsolvable(q: Queue, n: int)
    requires Explored(q, n) && n == |q.store| && !q.soln
    ensures Wellformed(q) && ClosedBelow(q.store, |q.store|) && !GoalAppended(q.store)
    ensures q.store[0].board != Goal ==> forall m: nat :: !Reachable(q.store[0].board, Goal, m)
  {
    assert ExploredUpTo(q, n);
    if q.store[0].board != Goal {
      forall m: nat
        ensures !Reachable(q.store[0].board, Goal, m)
      {
        UnsolvableSound(q.store, m);
      }
    }
  }

  /** The queue of find_optimal_solution: the linked store, the tail index
      qp, the static cursor `counter` and the solution flag. */
  class Search {
    var store: seq<State>
    var qp: int
    var counter: int
    var soln: bool

    function Snapshot(): Queue
      reads this
    {
      Queue(store, soln)
    }

    /** qp names the tail and the cursor is within the store or just past it. */
    ghost predicate Valid()
      reads this
    {
      |store| >= 1 && qp == |store| - 1 && 0 <= counter <= |store|
    }

    /** main with puzzle_from_file: the starting board alone, as the root. */
    constructor(root: Board)
      requires IsPermutation(root)
      ensures Valid() && Wellformed(Snapshot())
      ensures store == [State(root, RootNode)] && qp == 0 && counter == 0 && !soln
    {
      store := [State(root, RootNode)];
      qp := 0;
      counter := 0;
      soln := false;
    }

    /** create_next_board: make the move on a copy of the board being
        expanded, then append the result unless an earlier board equals it.
        A displacement other than N, E, S, W is fatal and changes nothing. */
    method CreateNextBoard(copy: State, index: int, tile: int, direction: int) returns (err: Option<MoveError>)
      requires Valid() && 0 <= tile < NumTiles
      requires direction in {MoveN, MoveE, MoveS, MoveW} ==> 0 <= tile + direction < NumTiles
      modifies this
      ensures Valid() && counter == old(counter)
      ensures MakeMove(copy.board, tile, direction).Failure? ==> err.Some? && Snapshot() == old(Snapshot())
      ensures MakeMove(copy.board, tile, direction).Success? ==>
        err.None? && Snapshot() == AddChild(old(Snapshot()), Slide(copy.board, tile, direction), index)
    {
      var moved := MakeMove(copy.board, tile, direction);
      if moved.Failure? {
        return Some(moved.error);
      }
      var potential := State(moved.value, index);
      var found := CheckIfBoard(AlreadyExists, potential, store, qp);
      if !found.value {
        store := store + [State(moved.value, index)];
        qp := qp + 1;
        var solution := CheckIfBoard(IsSolution, store[qp], store, qp);
        soln := solution.value;
      }
      err := None;
    }

    /** search_possible_directions: each of the four directions, in order,
        that lands on the blank yields a candidate. */
    method SearchPossibleDirections(tile: int, direction: seq<int>, current: State, index: int)
      requires Valid() && 0 <= tile < NumTiles && current.board[tile] != Blank
      requires direction == SearchDirections(tile)
      modifies this
      ensures Valid() && counter == old(counter)
      ensures Snapshot() == AddAll(old(Snapshot()), ChildrenByDirection(current.board, tile, 4), index)
    {
      ghost var q0 := Snapshot();
      var i := 0;
      while i < 4
        invariant 0 <= i <= 4
        invariant Valid() && counter == old(counter)
        invariant Snapshot() == AddAll(q0, ChildrenByDirection(current.board, tile, i), index)
      {
        ghost var q := Snapshot();
        OfferDirection(q0, current.board, tile, i, index);
        if current.board[tile + direction[i]] == Blank {
          assert direction[i] != 0;
          var err := CreateNextBoard(current, index, tile, direction[i]);
        }
        i := i + 1;
      }
    }

    /** define_options_and_explore: every non-blank cell, in row-major
        order, is tried in the four directions. */
    method DefineOptionsAndExplore(current: State, index: int)
      requires Valid()
      modifies this
      ensures Valid() && counter == old(counter)
      ensures Snapshot() == AddAll(old(Snapshot()), Children(current.board), index)
    {
      ghost var q0 := Snapshot();
      var tile := 0;
      while tile < NumTiles
        invariant 0 <= tile <= NumTiles
        invariant Valid() && counter == old(counter)
        invariant Snapshot() == AddAll(q0, ChildrenBelow(current.board, tile), index)
      {
        AddAllCell(q0, current.board, tile, index);
        if current.board[tile] != Blank {
          var direction := SearchDirections(tile);
          SearchPossibleDirections(tile, direction, current, index);
        }
        tile := tile + 1;
      }
    }

    /** find_optimal_solution: expand the board at the cursor, move the
        cursor on, and stop when the flag is up or the cursor has passed the
        tail. The fuel bounds the number of expansions. */
    method FindOptimalSolution(fuel: nat) returns (outcome: Outcome)
      requires Valid() && Wellformed(Snapshot()) && |store| == 1 && counter == 0
      modifies this
      ensures Valid() && Wellformed(Snapshot()) && store[0] == old(store[0])
      ensures outcome == Solved ==> soln && GoalAppended(store) && store[|store| - 1].board == Goal
      ensures outcome == Solved ==> Shortest(store[0].board, Depth(store, |store| - 1))
      ensures outcome == Unsolvable ==> counter == |store| && ClosedBelow(store, |store|) && !GoalAppended(store)
      ensures outcome == OutOfFuel ==> !soln && counter < |store|
      ensures store[0].board == Goal ==> outcome != Solved
      ensures outcome == Unsolvable && store[0].board != Goal ==>
        forall n: nat :: !Reachable(store[0].board, Goal, n)
    {
      ghost var s0 := store;
      ExploredStart(Snapshot());
      soln := false;
      assert Snapshot() == Queue(s0, false);
      var steps := fuel;
      var exhausted := false;
      while !soln && !exhausted && steps > 0
        invariant Valid() && Explored(Snapshot(), counter) && store[0] == old(store[0])
        invariant if exhausted then counter == |store| && !soln else counter < |store|
        decreases steps
      {
        steps := steps - 1;
        var index := counter;
        var current := store[index];
        counter := counter + 1;
        ghost var q := Snapshot();
        DefineOptionsAndExplore(current, index);
        ExploredStep(q, index);
        assert Snapshot() == AddAll(q, Children(q.store[index].board), index);
        exhausted := counter == qp + 1;
      }
      assert Snapshot().store == store;
      if exhausted {
        ExhaustedUnsolvable(Snapshot(), counter);
        outcome := Unsolvable;
      } else if soln {
        SolvedOptimal(Snapshot(), counter);
        outcome := Solved;
      } else {
        ExploredWellformed(Snapshot(), counter);
        outcome := OutOfFuel;
      }
    }
  }
}
