/** The puzzle builder and the player's edits: the prefill part of
    `applyPrefillAndConstraints`, the cell click handler and
    `resetUserEntries`. */
module Puzzle {
  import opened Grid
  import opened Random
  import opened Seqs

  /** Which cells are locked (revealed at the start, not editable). */
  type Mask = m: seq<seq<bool>> | Square(m)
    witness seq(Size, _ => seq(Size, _ => false))

  /** The cells `[r, c]` of `allCells.slice(0, prefill)`: the first `prefill`
      entries, or all of them when `prefill` exceeds the list. */
  function Keep(cells: seq<(int, int)>, prefill: nat): (k: set<(int, int)>)
    ensures forall x :: x in k <==> exists i :: 0 <= i < |cells| && i < prefill && cells[i] == x
    ensures prefill >= |cells| ==> k == set x | x in cells
    ensures prefill == 0 ==> k == {}
  {
    var kept := cells[..if prefill <= |cells| then prefill else |cells|];
    set x | x in kept
  }

  /** The prefill loop: a kept cell keeps its solution value and is locked,
      every other cell is emptied and unlocked. */
  function Prefill(sol: Board, keep: set<(int, int)>): (out: (Board, Mask))
    ensures forall r, c :: 0 <= r < Size && 0 <= c < Size ==> (out.1[r][c] <==> (r, c) in keep)
    ensures forall r, c :: 0 <= r < Size && 0 <= c < Size ==> out.0[r][c] == if out.1[r][c] then sol[r][c] else 0
  {
    var board: Board := seq(Size, r requires 0 <= r < Size =>
      seq(Size, c requires 0 <= c < Size => if (r, c) in keep then sol[r][c] else 0));
    var mask: Mask := seq(Size, r => seq(Size, c => (r, c) in keep));
    (board, mask)
  }

  /** The cells a mask locks. */
  function Locked(mask: Mask): set<(int, int)> {
    set r, c | 0 <= r < Size && 0 <= c < Size && mask[r][c] :: (r, c)
  }

  /** The cells a mask leaves editable. */
  function Unlocked(mask: Mask): set<(int, int)> {
    set r, c | 0 <= r < Size && 0 <= c < Size && !mask[r][c] :: (r, c)
  }

  /** Every cell is either locked and shows the solution's value, or
      unlocked and empty: the state right after prefill. */
  ghost predicate Fresh(board: Board, mask: Mask, sol: Board) {
    forall r, c :: 0 <= r < Size && 0 <= c < Size ==>
      (mask[r][c] && board[r][c] == sol[r][c]) || (!mask[r][c] && board[r][c] == 0)
  }

  /** A board with `n` locked cells has `Size * Size - n` editable ones. */
  lemma UnlockedCount(mask: Mask)
    ensures |Locked(mask)| + |Unlocked(mask)| == Size * Size
  {
    AllCellsCover();
    assert Locked(mask) + Unlocked(mask) == Cells();
    assert Locked(mask) * Unlocked(mask) == {};
  }

  /** Prefill from a shuffle of `allCells`: returns the player's board, the
      lock mask and the next unused draw. Exactly min(prefill, 36) distinct
      cells are locked, with their solution values; the rest are empty. */
  function ApplyPrefill(sol: Board, prefill: nat, src: Source, k: nat): (out: (Board, Mask, nat))
    ensures Fresh(out.0, out.1, sol)
    ensures |Locked(out.1)| == if prefill <= Size * Size then prefill else Size * Size
    ensures |Unlocked(out.1)| == if prefill <= Size * Size then Size * Size - prefill else 0
    ensures out.2 == k + Size * Size - 1
  {
    var (shuffled, k1) := Shuffle(AllCells(), src, k);
    var keep := Keep(shuffled, prefill);
    var (board, mask) := Prefill(sol, keep);
    KeepCount(shuffled, prefill);
    assert Locked(mask) == keep by {
      forall x | x in keep
        ensures x in Locked(mask)
      {
        assert x in multiset(shuffled);
        assert x in AllCells();
        AllCellsCover();
      }
    }
    UnlockedCount(mask);
    (board, mask, k1)
  }

  /** The kept prefix of a shuffle of `allCells` has no repeated cell. */
  lemma KeepCount(shuffled: seq<(int, int)>, prefill: nat)
    requires multiset(shuffled) == multiset(AllCells())
    ensures |Keep(shuffled, prefill)| == if prefill <= Size * Size then prefill else Size * Size
  {
    AllCellsDistinct();
    PermutationDistinct(AllCells(), shuffled);
    assert |shuffled| == Size * Size by {
      assert |multiset(shuffled)| == |multiset(AllCells())|;
    }
    var n := if prefill <= |shuffled| then prefill else |shuffled|;
    assert Distinct(shuffled[..n]);
    DistinctCard(shuffled[..n]);
  }

  /** The successor of a cell value on a click: 0 -> 1 -> 2 -> 0. A click
      always changes the value, and only a moon becomes empty. */
  function Cycle(v: Cell): (n: Cell)
    ensures n != v
    ensures n == 0 <==> v == 2
    ensures v != 2 ==> n == v + 1
  {
    (v + 1) % 3
  }

  /** The cell click handler: an unlocked cell advances one step of the
      cycle empty, circle, moon, empty; a locked cell ignores the click. */
  function Toggle(board: Board, mask: Mask, r: int, c: int): (b: Board)
    requires InBounds(r, c)
    ensures forall i, j :: 0 <= i < Size && 0 <= j < Size && (mask[i][j] || (i, j) != (r, c)) ==> b[i][j] == board[i][j]
    ensures !mask[r][c] ==> b[r][c] == match board[r][c] case 0 => 1 case 1 => 2 case 2 => 0
  {
    if mask[r][c] then board else Set(board, r, c, Cycle(board[r][c]))
  }

  /** Three clicks on any cell give back the board it started from. */
  lemma ToggleThrice(board: Board, mask: Mask, r: int, c: int)
    requires InBounds(r, c)
    ensures Toggle(Toggle(Toggle(board, mask, r, c), mask, r, c), mask, r, c) == board
  {
    var b3 := Toggle(Toggle(Toggle(board, mask, r, c), mask, r, c), mask, r, c);
    assert b3[r] == board[r];
  }

  /** `resetUserEntries`: every unlocked cell is emptied, every locked cell
      keeps its value. */
  function ResetUserEntries(board: Board, mask: Mask): (b: Board)
    ensures forall r, c :: 0 <= r < Size && 0 <= c < Size ==> b[r][c] == if mask[r][c] then board[r][c] else 0
  {
    seq(Size, r requires 0 <= r < Size =>
      seq(Size, c requires 0 <= c < Size => if mask[r][c] then board[r][c] else 0))
  }

  /** Resetting twice is resetting once. */
  lemma ResetIdempotent(board: Board, mask: Mask)
    ensures ResetUserEntries(ResetUserEntries(board, mask), mask) == ResetUserEntries(board, mask)
  {
    var once := ResetUserEntries(board, mask);
    var twice := ResetUserEntries(once, mask);
    forall r | 0 <= r < Size
      ensures twice[r] == once[r]
    {
    }
  }

  /** Clicks never touch a locked cell, so resetting after any click gives
      the same board as resetting before it. */
  lemma ResetAfterToggle(board: Board, mask: Mask, r: int, c: int)
    requires InBounds(r, c)
    ensures ResetUserEntries(Toggle(board, mask, r, c), mask) == ResetUserEntries(board, mask)
  {
    var a := ResetUserEntries(Toggle(board, mask, r, c), mask);
    var b := ResetUserEntries(board, mask);
    forall i | 0 <= i < Size
      ensures a[i] == b[i]
    {
    }
  }

  /** Reset on a board that still shows the solution on its locked cells
      brings back the freshly prefilled board. */
  lemma ResetRestoresPrefill(initial: Board, board: Board, mask: Mask, sol: Board)
    requires Fresh(initial, mask, sol)
    requires forall r, c :: 0 <= r < Size && 0 <= c < Size && mask[r][c] ==> board[r][c] == sol[r][c]
    ensures ResetUserEntries(board, mask) == initial
  {
    var b := ResetUserEntries(board, mask);
    forall i | 0 <= i < Size
      ensures b[i] == initial[i]
    {
    }
  }
}
