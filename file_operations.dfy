/** Reading the starting board: the characters of the puzzle file are
    scanned in order, line breaks are skipped, every other character must
    be a board symbol, and the symbols kept must be exactly one of each of
    ' ', '1'..'8'. The file is a character sequence here; the stream that
    delivers it is outside the model. */
module FileOperations {
  import opened Board

  datatype FileError =
    | FileContentError(c: char)      // a character that is not a board symbol
    | DuplicateMissingCharError      // some symbol is missing or repeated

  /** Newline and carriage return are skipped while reading. */
  predicate Ignored(c: char) {
    c == '\n' || c == '\r'
  }

  /** The characters the reader keeps, in file order. */
  function Accepted(file: seq<char>): (s: seq<char>)
    ensures |s| <= |file|
    ensures forall i :: 0 <= i < |s| ==> !Ignored(s[i])
  {
    if file == [] then []
    else
      var c := file[|file| - 1];
      Accepted(file[..|file| - 1]) + (if Ignored(c) then [] else [c])
  }

  predicate AllSymbols(s: seq<char>) {
    forall i :: 0 <= i < |s| ==> IsSymbol(s[i])
  }

  /** Position n holds the first character that is neither skipped nor a
      board symbol. */
  predicate FirstForeign(file: seq<char>, n: int) {
    0 <= n < |file| && !Ignored(file[n]) && !IsSymbol(file[n]) && AllSymbols(Accepted(file[..n]))
  }

  /** How often the symbol of counter slot k occurs in s. */
  function Tally(s: seq<char>, k: int): nat
    requires 0 <= k < NumTiles
  {
    multiset(s)[SymbolOf(k)]
  }

  const Zeros: seq<int> := [0, 0, 0, 0, 0, 0, 0, 0, 0]

  /** One more occurrence in the slot of c, when c is a symbol. */
  function Bump(t: seq<int>, c: char): (u: seq<int>)
    requires |t| == NumTiles
    ensures |u| == NumTiles
  {
    if IsSymbol(c) then t[SymbolIndex(c) := t[SymbolIndex(c)] + 1] else t
  }

  /** The nine counters after counting the symbols of s one by one. */
  function Tallied(s: seq<char>): (t: seq<int>)
    ensures |t| == NumTiles
  {
    if s == [] then Zeros else Bump(Tallied(s[..|s| - 1]), s[|s| - 1])
  }

  /** Counter slot k ends up holding the number of occurrences of its symbol. */
  lemma {:induction false} TalliedCounts(s: seq<char>)
    ensures forall k :: 0 <= k < NumTiles ==> Tallied(s)[k] == Tally(s, k)
  {
    if s != [] {
      var s', c := s[..|s| - 1], s[|s| - 1];
      TalliedCounts(s');
      assert s == s' + [c];
      if IsSymbol(c) {
        CountStep(s', c);
      } else {
        forall k | 0 <= k < NumTiles
          ensures Tally(s, k) == Tally(s', k)
        {
          assert SymbolOf(k) != c;
        }
      }
    }
  }

  /** Keeping characters distributes over concatenation of the file. */
  lemma {:induction false} AcceptedAppend(a: seq<char>, b: seq<char>)
    ensures Accepted(a + b) == Accepted(a) + Accepted(b)
    decreases |b|
  {
    if b != [] {
      var b', c := b[..|b| - 1], b[|b| - 1];
      ConcatDropLast(a, b);
      AcceptedAppend(a, b');
    } else {
      assert a + b == a;
    }
  }

  /** A line break anywhere in the file changes nothing about the board read. */
  lemma IgnoredCharsSkipped(a: seq<char>, c: char, b: seq<char>)
    requires Ignored(c)
    ensures Accepted(a + [c] + b) == Accepted(a + b)
  {
    AcceptedAppend(a + [c], b);
    AcceptedAppend(a, [c]);
    AcceptedAppend(a, b);
    assert Accepted([c]) == Accepted([]) + [] by {
      assert [c][..0] == [];
    }
  }

  /** characters_from_file_count: bump the slot of a symbol, or reject any
      other character. */
  method CharactersFromFileCount(c: char, counts: array<int>) returns (ok: bool)
    requires counts.Length == NumTiles
    modifies counts
    ensures ok <==> IsSymbol(c)
    ensures counts[..] == Bump(old(counts[..]), c)
  {
    var slot := -1;
    match c {
      case ' ' => slot := 0;
      case '1' => slot := 1;
      case '2' => slot := 2;
      case '3' => slot := 3;
      case '4' => slot := 4;
      case '5' => slot := 5;
      case '6' => slot := 6;
      case '7' => slot := 7;
      case '8' => slot := 8;
      case _ =>
    }
    ok := slot >= 0;
    if ok {
      counts[slot] := counts[slot] + 1;
    }
  }

  /** The board cells hold the kept characters, as far as both reach. */
  predicate Stored(cells: seq<char>, kept: seq<char>)
  {
    forall k :: 0 <= k < |cells| && k < |kept| ==> cells[k] == kept[k]
  }

  /** Counter k holds the number of occurrences of symbol k. */
  predicate Counted(tallies: seq<int>, kept: seq<char>)
  {
    forall k :: 0 <= k < |tallies| && k < NumTiles ==> tallies[k] == Tally(kept, k)
  }

  /** Every counter is exactly one. */
  predicate AllOnes(tallies: seq<int>)
  {
    forall k :: 0 <= k < |tallies| ==> tallies[k] == 1
  }

  /** check_starting_board: every one of the nine counters must be exactly 1. */
  method CheckStartingBoard(counts: array<int>) returns (ok: bool)
    requires counts.Length == NumTiles
    ensures ok <==> AllOnes(counts[..])
  {
    ok := true;
    var i := 0;
    while i < NumTiles
      invariant 0 <= i <= NumTiles
      invariant forall k :: 0 <= k < i ==> counts[k] == 1
    {
      if counts[i] != 1 {
        ok := false;
        return;
      }
      i := i + 1;
    }
  }

  /** check_file_and_fill_first_board over the whole file: the board is the
      accepted characters when they are one of each symbol; the first foreign
      character is reported otherwise, and a missing or repeated symbol after
      that. */
  method CheckFileAndFillFirstBoard(file: seq<char>) returns (r: Result<Board, FileError>)
    ensures r.Failure? && r.error.FileContentError? <==> !AllSymbols(Accepted(file))
    ensures r.Failure? && r.error.FileContentError? ==>
      exists n :: FirstForeign(file, n) && file[n] == r.error.c
    ensures r.Success? <==> IsPermutation(Accepted(file))
    ensures r.Success? ==> r.value == Accepted(file) && IsPermutation(r.value)
    ensures |Accepted(file)| != NumTiles ==> r.Failure?
  {
    var board := new char[NumTiles]((_) => '0');
    var counts := new int[NumTiles]((_) => 0);
    assert counts[..] == Zeros;
    var foreign := FillFirstBoard(file, board, counts);
    if foreign.Some? {
      if IsPermutation(Accepted(file)) {
        PermutationLength(Accepted(file));
      }
      return Failure(FileContentError(foreign.value));
    }
    ghost var kept := Accepted(file);
    ghost var cells, tallies := board[..], counts[..];
    Verdict(kept, cells, tallies);
    var ok := CheckStartingBoard(counts);
    assert counts[..] == tallies && board[..] == cells;
    if !ok {
      assert !IsPermutation(kept);
      r := Failure(DuplicateMissingCharError);
    } else {
      assert cells == kept;
      r := Success(board[..]);
    }
  }

  /** The read loop: each kept character is counted and then written to the
      next board cell, stopping at the first foreign character. A tenth kept
      character is counted but not written, where the C reader writes
      past the board. */
  method FillFirstBoard(file: seq<char>, board: array<char>, counts: array<int>) returns (foreign: Option<char>)
    requires board.Length == NumTiles && counts.Length == NumTiles
    requires counts[..] == Zeros
    modifies board, counts
    ensures foreign.Some? <==> !AllSymbols(Accepted(file))
    ensures foreign.Some? ==>
      exists n :: FirstForeign(file, n) && file[n] == foreign.value
    ensures foreign.None? ==> Stored(board[..], Accepted(file)) && Counted(counts[..], Accepted(file))
  {
    var i := 0;
    var pos := 0;
    ghost var kept: seq<char> := [];
    KeptStart(file);
    foreign := None;
    while pos < |file|
      invariant 0 <= pos <= |file|
      invariant KeptSoFar(file, pos, kept)
      invariant i == |kept|
      invariant AllSymbols(kept)
      invariant counts[..] == Tallied(kept)
      invariant Stored(board[..], kept)
      invariant foreign.None?
    {
      var c := file[pos];
      KeptNext(file, pos, kept);
      if !Ignored(c) {
        var ok := KeepCharacter(c, board, counts, i, kept);
        if !ok {
          foreign := Some(c);
          break;
        }
        i := i + 1;
        kept := kept + [c];
      }
      pos := pos + 1;
    }
    if foreign.Some? {
      KeptForeign(file, pos, kept);
    } else {
      KeptAll(file, kept);
      TalliedCounts(kept);
    }
  }

  /** kept is what the read loop keeps of the first pos characters; held as
      one fact, opened only by the lemmas below. */
  ghost predicate KeptSoFar(file: seq<char>, pos: int, kept: seq<char>)
    requires 0 <= pos <= |file|
  {
    forall k :: k == pos ==> kept == Accepted(file[..k])
  }

  lemma KeptStart(file: seq<char>)
    ensures KeptSoFar(file, 0, [])
  {
    assert file[..0] == [];
  }

  /** Reading one more character keeps it unless it is a line break. */
  lemma KeptNext(file: seq<char>, pos: int, kept: seq<char>)
    requires 0 <= pos < |file| && KeptSoFar(file, pos, kept)
    ensures KeptSoFar(file, pos + 1, if Ignored(file[pos]) then kept else kept + [file[pos]])
  {
    assert kept == Accepted(file[..pos]);
    AcceptedSnoc(file, pos);
    if Ignored(file[pos]) {
      assert kept + [] == kept;
    }
  }

  /** A foreign character after symbols only is the first foreign one. */
  lemma KeptForeign(file: seq<char>, pos: int, kept: seq<char>)
    requires 0 <= pos < |file| && KeptSoFar(file, pos, kept) && AllSymbols(kept)
    requires !Ignored(file[pos]) && !IsSymbol(file[pos])
    ensures !AllSymbols(Accepted(file)) && FirstForeign(file, pos)
  {
    assert kept == Accepted(file[..pos]);
    ForeignRejected(file, pos);
  }

  /** At the end of the file, everything kept is what the file accepts. */
  lemma KeptAll(file: seq<char>, kept: seq<char>)
    requires KeptSoFar(file, |file|, kept)
    ensures kept == Accepted(file)
  {
    assert kept == Accepted(file[..|file|]);
    assert file[..|file|] == file;
  }

  /** One kept character of the read loop: counted, then written to cell i
      while the board has room; a foreign one is only rejected. */
  method KeepCharacter(c: char, board: array<char>, counts: array<int>, i: int, ghost kept: seq<char>) returns (ok: bool)
    requires board.Length == NumTiles && counts.Length == NumTiles
    requires i == |kept| && AllSymbols(kept) && counts[..] == Tallied(kept) && Stored(board[..], kept)
    modifies board, counts
    ensures ok <==> IsSymbol(c)
    ensures !ok ==> counts[..] == old(counts[..]) && board[..] == old(board[..])
    ensures ok ==> AllSymbols(kept + [c]) && counts[..] == Tallied(kept + [c]) && Stored(board[..], kept + [c])
  {
    ghost var cells := board[..];
    ok := CharactersFromFileCount(c, counts);
    assert board[..] == cells;
    if ok {
      TalliedSnoc(kept, c);
      SymbolsSnoc(kept, c);
      ghost var tallies := counts[..];
      if i < NumTiles {
        board[i] := c;
        StoredSnoc(cells, kept, c);
      } else {
        StoredPast(cells, kept, c);
      }
      assert counts[..] == tallies;
    }
  }

  lemma TalliedSnoc(kept: seq<char>, c: char)
    ensures Tallied(kept + [c]) == Bump(Tallied(kept), c)
  {
    SnocPrefix(kept, c);
  }

  /** Writing the next kept character to the next cell keeps the cells in step. */
  lemma StoredSnoc(cells: seq<char>, kept: seq<char>, c: char)
    requires Stored(cells, kept) && |kept| < |cells|
    ensures Stored(cells[|kept| := c], kept + [c])
  {
  }

  /** Past the last cell nothing is written, and the cells stay in step. */
  lemma StoredPast(cells: seq<char>, kept: seq<char>, c: char)
    requires Stored(cells, kept) && |cells| <= |kept|
    ensures Stored(cells, kept + [c])
  {
  }

  /** What the final count check decides, stated over snapshots of the board
      and of the counters left by the read loop. */
  lemma Verdict(kept: seq<char>, cells: seq<char>, tallies: seq<int>)
    requires AllSymbols(kept) && |cells| == NumTiles && |tallies| == NumTiles
    requires Stored(cells, kept) && Counted(tallies, kept)
    ensures AllOnes(tallies) <==> IsPermutation(kept)
    ensures IsPermutation(kept) ==> cells == kept && IsPermutation(cells)
  {
    CountsMeanPermutation(kept);
    if IsPermutation(kept) {
      PermutationLength(kept);
      assert cells == kept;
    }
  }

  lemma AcceptedSnoc(file: seq<char>, pos: int)
    requires 0 <= pos < |file|
    ensures Accepted(file[..pos + 1]) == Accepted(file[..pos]) + (if Ignored(file[pos]) then [] else [file[pos]])
  {
    assert file[..pos + 1][..pos] == file[..pos];
  }

  /** A foreign character anywhere in the file makes the kept characters
      contain a non-symbol. */
  lemma ForeignRejected(file: seq<char>, pos: int)
    requires 0 <= pos < |file| && !Ignored(file[pos]) && !IsSymbol(file[pos])
    ensures !AllSymbols(Accepted(file))
    ensures AllSymbols(Accepted(file[..pos])) ==> FirstForeign(file, pos)
  {
    var before, upTo := Accepted(file[..pos]), Accepted(file[..pos + 1]);
    AcceptedSnoc(file, pos);
    SplitAt(file, pos + 1);
    AcceptedAppend(file[..pos + 1], file[pos + 1..]);
    assert Accepted(file)[|before|] == upTo[|before|] == file[pos];
  }


  lemma SymbolsSnoc(s: seq<char>, c: char)
    requires AllSymbols(s) && IsSymbol(c)
    ensures AllSymbols(s + [c])
  {
    forall i | 0 <= i < |s| + 1
      ensures IsSymbol((s + [c])[i])
    {
      if i < |s| {
        assert (s + [c])[i] == s[i];
      }
    }
  }

  /** Keeping one more symbol adds one to its own counter only. */
  lemma CountStep(before: seq<char>, c: char)
    requires IsSymbol(c)
    ensures forall k :: 0 <= k < NumTiles ==>
      Tally(before + [c], k) == Tally(before, k) + (if k == SymbolIndex(c) then 1 else 0)
  {
    forall k | 0 <= k < NumTiles
      ensures Tally(before + [c], k) == Tally(before, k) + (if k == SymbolIndex(c) then 1 else 0)
    {
      if SymbolOf(k) == c {
        assert k == SymbolIndex(c);
      }
    }
  }

  /** For a sequence of symbols, every counter being 1 is the same as being a
      permutation of the nine symbols. */
  lemma CountsMeanPermutation(s: seq<char>)
    requires AllSymbols(s)
    ensures (forall k :: 0 <= k < NumTiles ==> Tally(s, k) == 1) <==> IsPermutation(s)
  {
    if forall k :: 0 <= k < NumTiles ==> Tally(s, k) == 1 {
      forall x
        ensures multiset(s)[x] == if IsSymbol(x) then 1 else 0
      {
        if IsSymbol(x) {
          assert Tally(s, SymbolIndex(x)) == 1;
        } else {
          assert x !in s;
        }
      }
    }
  }
}
