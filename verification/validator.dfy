/** The validator: `checkBoard` with `isBalanced` and `hasTriple`. It
    reports only the first violation: row i, then column i, for i = 0 .. 5,
    then the links in row-major order of their origin. */
module Validator {
  import opened Grid
  import opened Rules
  import opened Links

  /** The message `checkBoard` leaves: nothing, `Invalid row i+1`,
      `Invalid column i+1` or `Constraint between ... is invalid`. Indices
      here are 0-based; the message adds one to each. */
  datatype Verdict =
    | Valid
    | BadRow(row: int)
    | BadColumn(col: int)
    | BadLink(r1: int, c1: int, r2: int, c2: int)

  /** A cell holding `a` can end up holding the symbol `x`: `a` itself, or
      any symbol while it is empty. */
  predicate Fills(a: Cell, x: Cell) {
    x != 0 && (a == 0 || a == x)
  }

  /** A link is judged only once both of its cells are filled; then '='
      needs equal symbols and '≠' different ones. Put otherwise, a link is
      broken exactly when no way of filling its empty cells satisfies it. */
  function Holds(board: Board, r: int, c: int, l: Link): (ok: bool)
    requires InBounds(r, c) && InBounds(l.r2, l.c2)
    ensures ok <==> exists x: Cell, y: Cell ::
      Fills(board[r][c], x) && Fills(board[l.r2][l.c2], y) && (l.kind == Same <==> x == y)
  {
    var a := board[r][c];
    var b := board[l.r2][l.c2];
    var x: Cell := if a != 0 then a else if b == 0 then 1 else if l.kind == Same then b else 3 - b;
    var y: Cell := if b != 0 then b else if l.kind == Same then x else 3 - x;
    var ok := a == 0 || b == 0 || (l.kind == Same <==> a == b);
    assert Fills(a, x) && Fills(b, y) && (ok ==> (l.kind == Same <==> x == y));
    ok
  }

  /** The cell (r, c) carries no link, or a link that holds. */
  predicate LinkOk(board: Board, cs: LinkGrid, r: int, c: int)
    requires WellPlaced(cs) && InBounds(r, c)
  {
    cs[r][c].None? || Holds(board, r, c, cs[r][c].value)
  }

  predicate AllLinksOk(board: Board, cs: LinkGrid)
    requires WellPlaced(cs)
  {
    forall r, c :: 0 <= r < Size && 0 <= c < Size ==> LinkOk(board, cs, r, c)
  }

  /** The first loop of `checkBoard`, from line `i` on. */
  function ScanLines(board: Board, i: int): (v: Verdict)
    requires 0 <= i <= Size
    ensures v.Valid? <==> forall j :: i <= j < Size ==> LineOk(Row(board, j)) && LineOk(Col(board, j))
    ensures v.BadRow? ==>
      && i <= v.row < Size && !LineOk(Row(board, v.row))
      && forall j :: i <= j < v.row ==> LineOk(Row(board, j)) && LineOk(Col(board, j))
    ensures v.BadColumn? ==>
      && i <= v.col < Size && LineOk(Row(board, v.col)) && !LineOk(Col(board, v.col))
      && forall j :: i <= j < v.col ==> LineOk(Row(board, j)) && LineOk(Col(board, j))
    ensures !v.BadLink?
    decreases Size - i
  {
    if i == Size then Valid
    else if !IsBalanced(Row(board, i)) || HasTriple(Row(board, i)) then BadRow(i)
    else if !IsBalanced(Col(board, i)) || HasTriple(Col(board, i)) then BadColumn(i)
    else ScanLines(board, i + 1)
  }

  /** Every link whose origin lies in [p, q) of the row-major order holds. */
  ghost predicate LinksOkBetween(board: Board, cs: LinkGrid, p: int, q: int)
    requires WellPlaced(cs)
  {
    forall i, j :: 0 <= i < Size && 0 <= j < Size && p <= Idx(i, j) < q ==> LinkOk(board, cs, i, j)
  }

  /** A range of origins that starts at (r, c) splits into (r, c) and the
      rest of the range. */
  lemma LinksOkStep(board: Board, cs: LinkGrid, r: int, c: int)
    requires WellPlaced(cs) && InBounds(r, c)
    ensures forall q :: Idx(r, c) < q ==>
      (LinksOkBetween(board, cs, Idx(r, c), q) <==>
       LinkOk(board, cs, r, c) && LinksOkBetween(board, cs, Idx(r, c) + 1, q))
  {
    forall q | Idx(r, c) < q && LinkOk(board, cs, r, c) && LinksOkBetween(board, cs, Idx(r, c) + 1, q)
      ensures LinksOkBetween(board, cs, Idx(r, c), q)
    {
      forall i, j | 0 <= i < Size && 0 <= j < Size && Idx(r, c) <= Idx(i, j) < q
        ensures LinkOk(board, cs, i, j)
      {
        if Idx(i, j) == Idx(r, c) {
          assert i == r && j == c;
        }
      }
    }
  }

  /** The second loop of `checkBoard`, from origin (r, c) on in row-major
      order. */
  function ScanLinks(board: Board, cs: LinkGrid, r: int, c: int): (v: Verdict)
    requires WellPlaced(cs) && 0 <= r <= Size && 0 <= c < Size
    ensures v.Valid? <==> LinksOkBetween(board, cs, Idx(r, c), Size * Size)
    ensures v.BadLink? ==>
      && InBounds(v.r1, v.c1) && Idx(r, c) <= Idx(v.r1, v.c1)
      && cs[v.r1][v.c1].Some? && cs[v.r1][v.c1].value.r2 == v.r2 && cs[v.r1][v.c1].value.c2 == v.c2
      && !LinkOk(board, cs, v.r1, v.c1)
      && LinksOkBetween(board, cs, Idx(r, c), Idx(v.r1, v.c1))
    ensures v.Valid? || v.BadLink?
    decreases Size - r, Size - c
  {
    if r == Size then Valid
    else
      var (nr, nc) := Next(r, c);
      LinksOkStep(board, cs, r, c);
      match cs[r][c]
      case Some(l) =>
        if Holds(board, r, c, l) then ScanLinks(board, cs, nr, nc)
        else BadLink(r, c, l.r2, l.c2)
      case None => ScanLinks(board, cs, nr, nc)
  }

  /** `checkBoard`: the first violation in scan order, or Valid when every
      row, every column and every link is fine. It only reads the board. */
  function CheckBoard(board: Board, cs: LinkGrid): (v: Verdict)
    requires WellPlaced(cs)
    ensures v.Valid? <==> AllLinesOk(board) && AllLinksOk(board, cs)
    ensures v.BadRow? ==>
      && 0 <= v.row < Size && !LineOk(Row(board, v.row))
      && forall j :: 0 <= j < v.row ==> LineOk(Row(board, j)) && LineOk(Col(board, j))
    ensures v.BadColumn? ==>
      && 0 <= v.col < Size && LineOk(Row(board, v.col)) && !LineOk(Col(board, v.col))
      && forall j :: 0 <= j < v.col ==> LineOk(Row(board, j)) && LineOk(Col(board, j))
    ensures v.BadLink? ==>
      && AllLinesOk(board) && InBounds(v.r1, v.c1)
      && cs[v.r1][v.c1].Some? && cs[v.r1][v.c1].value.r2 == v.r2 && cs[v.r1][v.c1].value.c2 == v.c2
      && !LinkOk(board, cs, v.r1, v.c1)
      && LinksOkBetween(board, cs, 0, Idx(v.r1, v.c1))
  {
    var lines := ScanLines(board, 0);
    AllLinksBetween(board, cs);
    if lines.Valid? then ScanLinks(board, cs, 0, 0) else lines
  }

  /** Every link holds exactly when every link with its origin anywhere in
      the row-major range [0, 36) holds. */
  lemma AllLinksBetween(board: Board, cs: LinkGrid)
    requires WellPlaced(cs)
    ensures AllLinksOk(board, cs) <==> LinksOkBetween(board, cs, 0, Size * Size)
  {
  }

  /** Any board that agrees with the solution on its filled cells draws no
      complaint: neither the freshly prefilled board nor the solution
      itself, nor any partial entry of the right symbols. */
  lemma ConsistentBoardValid(board: Board, cs: LinkGrid, sol: Board)
    requires Solved(sol) && WellPlaced(cs) && Agrees(cs, sol) && Below(board, sol)
    ensures CheckBoard(board, cs) == Valid
  {
    AllLinesOkBelow(board, sol);
  }

  /** A full board the validator accepts is a solution that keeps every
      link: the game's winning condition. */
  lemma FullAndValidIsSolved(board: Board, cs: LinkGrid)
    requires WellPlaced(cs) && Full(board) && CheckBoard(board, cs) == Valid
    ensures Solved(board) && AllLinksOk(board, cs)
  {
  }

  /** The row 1 1 1 2 2 2 is balanced but holds a triple, so a board whose
      first row it is gets `Invalid row 1`. */
  lemma TripleRowReported(board: Board, cs: LinkGrid)
    requires WellPlaced(cs) && board[0] == [1, 1, 1, 2, 2, 2]
    ensures CheckBoard(board, cs) == BadRow(0)
  {
    BalancedWithTriple();
  }

  /** A line whose cells from the third on are empty keeps both rules. */
  lemma TwoCellLineOk(line: seq<Cell>)
    requires |line| == Size && forall k :: 2 <= k < Size ==> line[k] == 0
    ensures LineOk(line)
  {
    assert line[1..][1..] == line[2..];
    EmptyCount(line[2..], 1);
    EmptyCount(line[2..], 2);
  }

  /** A board whose only filled cells are (0, 0) and (0, 1) keeps both
      rules in every line. */
  lemma TwoCellBoardOk(board: Board)
    requires forall i, j :: 0 <= i < Size && 0 <= j < Size && (i > 0 || j > 1) ==> board[i][j] == 0
    ensures AllLinesOk(board)
  {
    forall i | 0 <= i < Size
      ensures LineOk(Row(board, i)) && LineOk(Col(board, i))
    {
      TwoCellLineOk(Row(board, i));
      TwoCellLineOk(Col(board, i));
    }
  }

  lemma {:induction false} EmptyCount(line: seq<Cell>, v: Cell)
    requires v != 0 && forall k :: 0 <= k < |line| ==> line[k] == 0
    ensures Count(line, v) == 0
  {
    if line != [] {
      EmptyCount(line[1..], v);
    }
  }

  /** The '=' link from (0, 0) to (0, 1) on a board whose only filled cells
      are those two: accepted when they match, reported naming that pair
      when they differ. */
  lemma SameLinkScenario(a: Cell, b: Cell)
    requires a != 0 && b != 0
    ensures
      var row: seq<Cell> := [a, b, 0, 0, 0, 0];
      var board: Board := [row] + Blank()[1..];
      var cs: LinkGrid := NoLinks()[0 := NoLinks()[0][0 := Some(Link(Same, 0, 1))]];
      WellPlaced(cs) && CheckBoard(board, cs) == if a == b then Valid else BadLink(0, 0, 0, 1)
  {
    var row: seq<Cell> := [a, b, 0, 0, 0, 0];
    var board: Board := [row] + Blank()[1..];
    var cs: LinkGrid := NoLinks()[0 := NoLinks()[0][0 := Some(Link(Same, 0, 1))]];
    TwoCellBoardOk(board);
    assert forall i, j :: 0 <= i < Size && 0 <= j < Size && (i, j) != (0, 0) ==> cs[i][j].None?;
    assert WellPlaced(cs);
    if a == b {
      assert AllLinksOk(board, cs);
    } else {
      assert !LinkOk(board, cs, 0, 0);
    }
  }
}
