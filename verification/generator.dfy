/** The solution generator: `generateValidBoard` with its nested `isValid`
    and `backtrack`, a randomized depth-first fill in row-major order. */
module Generator {
  import opened Grid
  import opened Rules
  import opened Random

  /** Outcome of a search: whether it completed the grid, the grid it leaves
      behind, and the next unused random draw. */
  datatype Search = Search(found: bool, grid: Board, next: nat)

  /** `isValid(r, c, val)`: with `val` written at (r, c), row r and column c
      each hold at most Half copies of `val` and no triple. Given a board
      whose lines keep both rules and whose cell (r, c) is empty, a symbol
      is accepted exactly when writing it keeps every line of the board
      within both rules. */
  function IsValid(g: Board, r: int, c: int, v: Cell): (ok: bool)
    requires InBounds(r, c)
    ensures v != 0 && AllLinesOk(g) && g[r][c] == 0 ==> (ok <==> AllLinesOk(Set(g, r, c, v)))
  {
    var h := Set(g, r, c, v);
    LocalCheck(g, r, c, v);
    Count(Row(h, r), v) <= Half && Count(Col(h, c), v) <= Half
    && !HasTriple(Row(h, r)) && !HasTriple(Col(h, c))
  }

  /** The search invariant at position `p`: the cells before `p` hold
      symbols, the cells from `p` on are empty, and no line breaks a rule. */
  ghost predicate Partial(g: Board, p: int) {
    && AllLinesOk(g)
    && forall i, j :: 0 <= i < Size && 0 <= j < Size ==> (g[i][j] != 0 <==> Idx(i, j) < p)
  }

  /** `g` and `h` agree on every cell before position `p`. */
  ghost predicate SamePrefix(g: Board, h: Board, p: int) {
    forall i, j :: 0 <= i < Size && 0 <= j < Size && Idx(i, j) < p ==> g[i][j] == h[i][j]
  }

  predicate Symbols(vals: seq<Cell>) {
    forall i :: 0 <= i < |vals| ==> vals[i] == 1 || vals[i] == 2
  }

  /** Why `isValid` may look at the written row and column only, and only
      at the written symbol: the other lines are untouched, and the count of
      the other symbol does not change. */
  lemma LocalCheck(g: Board, r: int, c: int, v: Cell)
    requires InBounds(r, c)
    ensures var h := Set(g, r, c, v);
      v != 0 && AllLinesOk(g) && g[r][c] == 0 ==>
        (Count(Row(h, r), v) <= Half && Count(Col(h, c), v) <= Half
         && !HasTriple(Row(h, r)) && !HasTriple(Col(h, c))
         <==> AllLinesOk(h))
  {
    var h := Set(g, r, c, v);
    if v != 0 && AllLinesOk(g) && g[r][c] == 0 {
      LinesOfSet(g, r, c, v);
      var w: Cell := 3 - v;
      CountUpdate(Row(g, r), c, v, w);
      CountUpdate(Col(g, c), r, v, w);
      assert Count(Row(h, r), w) == Count(Row(g, r), w);
      assert Count(Col(h, c), w) == Count(Col(g, c), w);
      if Count(Row(h, r), v) <= Half && Count(Col(h, c), v) <= Half
         && !HasTriple(Row(h, r)) && !HasTriple(Col(h, c)) {
        assert LineOk(Row(h, r)) && LineOk(Col(h, c));
        forall i | 0 <= i < Size
          ensures LineOk(Row(h, i)) && LineOk(Col(h, i))
        {
          if i != r {
            assert Row(h, i) == Row(g, i);
          }
          if i != c {
            assert Col(h, i) == Col(g, i);
          }
        }
      }
    }
  }

  /** One step of `backtrack` at (r, c): writing a symbol that `isValid`
      accepts moves the search invariant one cell forward. */
  lemma Advance(g: Board, r: int, c: int, v: Cell)
    requires InBounds(r, c) && v != 0
    ensures Partial(g, Idx(r, c)) && IsValid(g, r, c, v) ==> Partial(Set(g, r, c, v), Idx(r, c) + 1)
  {
    if Partial(g, Idx(r, c)) {
      assert g[r][c] == 0;
    }
  }

  /** `backtrack(r, c)`: fill (r, c) and every later cell. Started under the
      search invariant, a successful search returns a solution that keeps
      every earlier cell, and a failed search hands back the board exactly
      as it received it (its own cell and every later one empty again). */
  function Backtrack(g: Board, r: int, c: int, src: Source, k: nat): (s: Search)
    requires 0 <= r <= Size && 0 <= c < Size
    ensures Partial(g, Idx(r, c)) && s.found ==>
      Solved(s.grid) && SamePrefix(s.grid, g, Idx(r, c))
    ensures Partial(g, Idx(r, c)) && !s.found ==> s.grid == g
    ensures s.next >= k
    decreases Size - r, Size - c, 3
  {
    if r == Size then Search(true, g, k)
    else
      var pair: seq<Cell> := [1, 2];
      var (vals, k1) := Shuffle(pair, src, k);
      ShufflePair(src, k);
      SetSame(g, r, c);
      TryValues(g, r, c, vals, src, k1)
  }

  /** The `for (let v of vals)` loop of `backtrack`, from the first value of
      `vals` on. Each value is written before `isValid` judges it, and the
      cell is emptied once every value has failed. */
  function TryValues(g: Board, r: int, c: int, vals: seq<Cell>, src: Source, k: nat): (s: Search)
    requires InBounds(r, c) && Symbols(vals)
    ensures Partial(Set(g, r, c, 0), Idx(r, c)) && s.found ==>
      Solved(s.grid) && SamePrefix(s.grid, Set(g, r, c, 0), Idx(r, c))
    ensures Partial(Set(g, r, c, 0), Idx(r, c)) && !s.found ==> s.grid == Set(g, r, c, 0)
    ensures s.next >= k
    decreases Size - r, Size - c, |vals|
  {
    if vals == [] then Search(false, Set(g, r, c, 0), k)
    else
      var v := vals[0];
      var base := Set(g, r, c, 0);
      var h := Set(g, r, c, v);
      SetTwice(g, r, c, v, 0);
      if IsValid(g, r, c, v) then
        SetTwice(g, r, c, 0, v);
        Advance(base, r, c, v);
        PrefixStep(g, r, c, v);
        var (nr, nc) := Next(r, c);
        var s := Backtrack(h, nr, nc, src, k);
        if s.found then s
        else TryValues(s.grid, r, c, vals[1..], src, s.next)
      else
        TryValues(h, r, c, vals[1..], src, k)
  }

  /** A board that agrees with `g` plus (r, c) := v on the cells up to and
      including (r, c) agrees with `g` plus (r, c) := 0 before (r, c). */
  lemma PrefixStep(g: Board, r: int, c: int, v: Cell)
    requires InBounds(r, c)
    ensures forall x: Board :: SamePrefix(x, Set(g, r, c, v), Idx(r, c) + 1) ==> SamePrefix(x, Set(g, r, c, 0), Idx(r, c))
  {
  }

  /** The search misses no solution: if some solution extends the filled
      cells before (r, c), `backtrack` succeeds, whatever the draws. */
  lemma {:induction false} BacktrackComplete(g: Board, r: int, c: int, src: Source, k: nat, sol: Board)
    requires 0 <= r <= Size && 0 <= c < Size
    requires Partial(g, Idx(r, c)) && Solved(sol) && SamePrefix(sol, g, Idx(r, c))
    ensures Backtrack(g, r, c, src, k).found
    decreases Size - r, Size - c, 3, 0
  {
    if r < Size {
      var pair: seq<Cell> := [1, 2];
      var (vals, k1) := Shuffle(pair, src, k);
      ShufflePair(src, k);
      SetSame(g, r, c);
      assert sol[r][c] in vals;
      TryValuesComplete(g, r, c, vals, src, k1, sol);
    }
  }

  lemma {:induction false} TryValuesComplete(g: Board, r: int, c: int, vals: seq<Cell>, src: Source, k: nat, sol: Board)
    requires InBounds(r, c) && Symbols(vals)
    requires Partial(Set(g, r, c, 0), Idx(r, c)) && Solved(sol)
    requires SamePrefix(sol, Set(g, r, c, 0), Idx(r, c)) && sol[r][c] in vals
    ensures TryValues(g, r, c, vals, src, k).found
    decreases Size - r, Size - c, |vals|, 1
  {
    if vals[0] == sol[r][c] {
      var (nr, nc) := Next(r, c);
      RightValue(g, r, c, sol);
      BacktrackComplete(Set(g, r, c, vals[0]), nr, nc, src, k, sol);
    } else {
      WrongValueFirst(g, r, c, vals, src, k, sol);
    }
  }

  /** When the first value tried is not the solution's, the search still
      reaches the solution's value later in `vals`, whatever happened to
      the first. */
  lemma {:induction false} WrongValueFirst(g: Board, r: int, c: int, vals: seq<Cell>, src: Source, k: nat, sol: Board)
    requires InBounds(r, c) && Symbols(vals) && vals != [] && vals[0] != sol[r][c]
    requires Partial(Set(g, r, c, 0), Idx(r, c)) && Solved(sol)
    requires SamePrefix(sol, Set(g, r, c, 0), Idx(r, c)) && sol[r][c] in vals
    ensures TryValues(g, r, c, vals, src, k).found
    decreases Size - r, Size - c, |vals|, 0
  {
    var v := vals[0];
    var base := Set(g, r, c, 0);
    var h := Set(g, r, c, v);
    assert sol[r][c] in vals[1..];
    SetTwice(g, r, c, v, 0);
    assert Set(h, r, c, 0) == base;
    if IsValid(g, r, c, v) {
      SetTwice(g, r, c, 0, v);
      Advance(base, r, c, v);
      assert Partial(h, Idx(r, c) + 1);
      var (nr, nc) := Next(r, c);
      var s := Backtrack(h, nr, nc, src, k);
      if !s.found {
        assert s.grid == h;
        TryValuesComplete(s.grid, r, c, vals[1..], src, s.next, sol);
      }
    } else {
      TryValuesComplete(h, r, c, vals[1..], src, k, sol);
    }
  }

  /** The solution's own symbol at (r, c) passes `isValid` and extends the
      prefix one cell, still agreeing with the solution. */
  lemma RightValue(g: Board, r: int, c: int, sol: Board)
    requires InBounds(r, c)
    requires Partial(Set(g, r, c, 0), Idx(r, c)) && Solved(sol)
    requires SamePrefix(sol, Set(g, r, c, 0), Idx(r, c))
    ensures IsValid(g, r, c, sol[r][c])
    ensures Partial(Set(g, r, c, sol[r][c]), Idx(r, c) + 1)
    ensures SamePrefix(sol, Set(g, r, c, sol[r][c]), Idx(r, c) + 1)
  {
    var base := Set(g, r, c, 0);
    var v := sol[r][c];
    var h := Set(g, r, c, v);
    SetTwice(g, r, c, 0, v);
    SetTwice(g, r, c, v, 0);
    assert Below(h, sol);
    AllLinesOkBelow(h, sol);
    assert base[r][c] == 0 && IsValid(base, r, c, v);
    Advance(base, r, c, v);
  }

  /** The line 1 2 1 2 1 2 and its mirror 2 1 2 1 2 1 keep both rules. */
  lemma AlternatingOk()
    ensures LineOk([1, 2, 1, 2, 1, 2]) && LineOk([2, 1, 2, 1, 2, 1])
  {
    var odd: seq<Cell> := [1, 2, 1, 2, 1, 2];
    var even: seq<Cell> := [2, 1, 2, 1, 2, 1];
    assert Count(odd, 1) == 3 && Count(odd, 2) == 3;
    assert Count(even, 1) == 3 && Count(even, 2) == 3;
  }

  /** The checkerboard, whose rows and columns alternate the two symbols. */
  function Checkerboard(): Board {
    var odd: seq<Cell> := [1, 2, 1, 2, 1, 2];
    var even: seq<Cell> := [2, 1, 2, 1, 2, 1];
    [odd, even, odd, even, odd, even]
  }

  /** So a solution exists. */
  lemma CheckerboardSolved()
    ensures Solved(Checkerboard())
  {
    CheckerboardLines();
    AlternatingOk();
  }

  /** Every row and every column of the checkerboard alternates. */
  lemma CheckerboardLines()
    ensures forall i :: 0 <= i < Size ==>
      Row(Checkerboard(), i) == if i % 2 == 0 then [1, 2, 1, 2, 1, 2] else [2, 1, 2, 1, 2, 1]
    ensures forall j :: 0 <= j < Size ==>
      Col(Checkerboard(), j) == if j % 2 == 0 then [1, 2, 1, 2, 1, 2] else [2, 1, 2, 1, 2, 1]
    ensures Full(Checkerboard())
  {
    var g := Checkerboard();
    forall j | 0 <= j < Size
      ensures Col(g, j) == if j % 2 == 0 then [1, 2, 1, 2, 1, 2] else [2, 1, 2, 1, 2, 1]
    {
      var col := Col(g, j);
      assert |col| == 6;
      forall k | 0 <= k < Size
        ensures col[k] == if (j + k) % 2 == 0 then 1 else 2
      {
      }
    }
  }

  /** `generateValidBoard`: run `backtrack` from the empty board. The source
      ignores whether the search succeeded; here success is proved: the
      search always completes a solution, for every sequence of draws. */
  function GenerateValidBoard(src: Source, k: nat): (s: Search)
    ensures s.found && Solved(s.grid)
    ensures s.next >= k
  {
    var blank := Blank();
    CheckerboardSolved();
    AllLinesOkBelow(blank, Checkerboard());
    assert Partial(blank, Idx(0, 0));
    BacktrackComplete(blank, 0, 0, src, k, Checkerboard());
    Backtrack(blank, 0, 0, src, k)
  }
}
