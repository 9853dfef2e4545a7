/** The Tango grid: cell values, square boards, their rows and columns, and
    the row-major order in which the generator fills them. */
module Grid {
  import opened Seqs

  /** Side of the square grid. */
  const Size: nat := 6

  /** Most copies of one symbol a row or a column may hold. */
  const Half: nat := Size / 2

  /** 0 is an empty cell, 1 and 2 are the two symbols (circle and moon). */
  type Cell = v: int | 0 <= v <= 2

  /** A matrix of side Size, stored row by row. */
  predicate Square<T>(m: seq<seq<T>>) {
    |m| == Size && forall r :: 0 <= r < |m| ==> |m[r]| == Size
  }

  type Board = g: seq<seq<Cell>> | Square(g)
    witness seq(Size, _ => seq(Size, _ => 0))

  predicate InBounds(r: int, c: int) {
    0 <= r < Size && 0 <= c < Size
  }

  /** Position of cell (r, c) in row-major order. */
  function Idx(r: int, c: int): int {
    r * Size + c
  }

  /** The cell after (r, c) in row-major order: `backtrack`'s `[nr, nc]`. */
  function Next(r: int, c: int): (n: (int, int))
    ensures Idx(n.0, n.1) == Idx(r, c) + 1
  {
    if c == Size - 1 then (r + 1, 0) else (r, c + 1)
  }

  /** The board with every cell empty. */
  function Blank(): (g: Board)
    ensures forall r, c :: 0 <= r < Size && 0 <= c < Size ==> g[r][c] == 0
  {
    seq(Size, _ => seq(Size, _ => 0))
  }

  /** The board `g` with cell (r, c) overwritten by `v`. */
  function Set(g: Board, r: int, c: int, v: Cell): (h: Board)
    requires InBounds(r, c)
    ensures h[r][c] == v
    ensures forall i, j {:trigger h[i][j]} :: InBounds(i, j) && (i, j) != (r, c) ==> h[i][j] == g[i][j]
  {
    var row: seq<Cell> := g[r][c := v];
    g[r := row]
  }

  lemma SetSame(g: Board, r: int, c: int)
    requires InBounds(r, c)
    ensures Set(g, r, c, g[r][c]) == g
  {
    assert g[r][c := g[r][c]] == g[r];
  }

  lemma SetTwice(g: Board, r: int, c: int, a: Cell, b: Cell)
    requires InBounds(r, c)
    ensures Set(Set(g, r, c, a), r, c, b) == Set(g, r, c, b)
  {
    assert Set(Set(g, r, c, a), r, c, b)[r] == Set(g, r, c, b)[r];
  }

  function Row(g: Board, i: int): (line: seq<Cell>)
    requires 0 <= i < Size
    ensures |line| == Size
  {
    g[i]
  }

  function Col(g: Board, j: int): (line: seq<Cell>)
    requires 0 <= j < Size
    ensures |line| == Size
    ensures forall k :: 0 <= k < Size ==> line[k] == g[k][j]
  {
    seq(Size, k requires 0 <= k < Size => g[k][j])
  }

  /** Writing a cell changes only its own row and its own column. */
  lemma LinesOfSet(g: Board, r: int, c: int, v: Cell)
    requires InBounds(r, c)
    ensures Row(Set(g, r, c, v), r) == Row(g, r)[c := v]
    ensures Col(Set(g, r, c, v), c) == Col(g, c)[r := v]
    ensures forall i :: 0 <= i < Size && i != r ==> Row(Set(g, r, c, v), i) == Row(g, i)
    ensures forall j :: 0 <= j < Size && j != c ==> Col(Set(g, r, c, v), j) == Col(g, j)
  {
    var h := Set(g, r, c, v);
    assert Col(h, c) == Col(g, c)[r := v];
    forall j | 0 <= j < Size && j != c
      ensures Col(h, j) == Col(g, j)
    {
      assert forall k :: 0 <= k < Size ==> Col(h, j)[k] == Col(g, j)[k];
    }
  }

  /** Number of cells of `s` holding `v` (the source's `filter(...).length`). */
  function Count(s: seq<Cell>, v: Cell): (n: nat)
    ensures n <= |s|
  {
    if s == [] then 0 else (if s[0] == v then 1 else 0) + Count(s[1..], v)
  }

  /** `Count` is the multiplicity of the value in the line. */
  lemma {:induction false} CountMultiplicity(s: seq<Cell>, v: Cell)
    ensures Count(s, v) == multiset(s)[v]
  {
    if s != [] {
      assert s == [s[0]] + s[1..];
      CountMultiplicity(s[1..], v);
    }
  }

  lemma {:induction false} CountUpdate(s: seq<Cell>, i: int, v: Cell, w: Cell)
    requires 0 <= i < |s|
    ensures Count(s[i := v], w)
         == Count(s, w) - (if s[i] == w then 1 else 0) + (if v == w then 1 else 0)
  {
    if i > 0 {
      assert s[i := v][1..] == s[1..][i - 1 := v];
      CountUpdate(s[1..], i - 1, v, w);
    } else {
      assert s[i := v][1..] == s[1..];
    }
  }

  /** `a` agrees with `b` on each of its non-empty cells. */
  predicate LineBelow(a: seq<Cell>, b: seq<Cell>) {
    |a| == |b| && forall k :: 0 <= k < |a| ==> a[k] == 0 || a[k] == b[k]
  }

  /** Emptying cells never raises the count of a symbol. */
  lemma {:induction false} CountBelow(a: seq<Cell>, b: seq<Cell>, w: Cell)
    requires LineBelow(a, b) && w != 0
    ensures Count(a, w) <= Count(b, w)
  {
    if a != [] {
      assert LineBelow(a[1..], b[1..]);
      CountBelow(a[1..], b[1..], w);
    }
  }

  /** In a line without empty cells every cell holds one of the two symbols. */
  lemma {:induction false} CountFull(s: seq<Cell>)
    ensures (forall k :: 0 <= k < |s| ==> s[k] != 0) ==> Count(s, 1) + Count(s, 2) == |s|
  {
    if s != [] {
      CountFull(s[1..]);
      assert forall k :: 0 <= k < |s| - 1 ==> s[1..][k] == s[k + 1];
    }
  }

  /** Board `g` agrees with board `h` on each of its non-empty cells. */
  predicate Below(g: Board, h: Board) {
    forall r, c :: 0 <= r < Size && 0 <= c < Size ==> g[r][c] == 0 || g[r][c] == h[r][c]
  }

  lemma LinesBelow(g: Board, h: Board)
    requires Below(g, h)
    ensures forall i :: 0 <= i < Size ==> LineBelow(Row(g, i), Row(h, i))
    ensures forall j :: 0 <= j < Size ==> LineBelow(Col(g, j), Col(h, j))
  {
  }

  /** Every cell of `g` holds a symbol. */
  predicate Full(g: Board) {
    forall r, c :: 0 <= r < Size && 0 <= c < Size ==> g[r][c] != 0
  }

  /** `allCells`: every coordinate, in row-major order. */
  function AllCells(): (cells: seq<(int, int)>)
    ensures |cells| == Size * Size
    ensures forall i :: 0 <= i < |cells| ==> InBounds(cells[i].0, cells[i].1) && Idx(cells[i].0, cells[i].1) == i
  {
    seq(Size * Size, i => (i / Size, i % Size))
  }

  lemma AllCellsDistinct()
    ensures Distinct(AllCells())
  {
  }

  /** The coordinates of the grid. */
  function Cells(): set<(int, int)> {
    set r, c | 0 <= r < Size && 0 <= c < Size :: (r, c)
  }

  /** `allCells` lists each coordinate of the grid once. */
  lemma AllCellsCover()
    ensures (set x | x in AllCells()) == Cells()
    ensures |Cells()| == Size * Size
  {
    var cells := AllCells();
    forall r, c | InBounds(r, c)
      ensures (r, c) in cells
    {
      assert cells[Idx(r, c)] == (r, c);
    }
    AllCellsDistinct();
    DistinctCard(cells);
  }
}
