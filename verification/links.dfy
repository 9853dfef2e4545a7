/** The constraint planner: `addRandomConstraints`, which records '=' and
    '≠' signs between a cell and its right or lower neighbour, at most one
    per origin cell, each agreeing with the solution. */
module Links {
  import opened Grid
  import opened Random
  import opened Seqs

  datatype Option<+T> = None | Some(value: T)

  /** '=' (the two cells hold the same symbol) or '≠' (they differ). */
  datatype Relation = Same | Differ

  /** `{ type, r2, c2 }`: the sign and the cell the origin points at. */
  datatype Link = Link(kind: Relation, r2: int, c2: int)

  /** `constraints[r][c]`: the link whose origin is (r, c), if any. Keying
      by origin allows at most one link per cell. */
  type LinkGrid = m: seq<seq<Option<Link>>> | Square(m)
    witness seq(Size, _ => seq(Size, _ => None))

  /** The grid without links, as `applyPrefillAndConstraints` resets it. */
  function NoLinks(): (cs: LinkGrid)
    ensures Origins(cs) == {}
  {
    seq(Size, _ => seq(Size, _ => None))
  }

  /** `l` points from (r, c) at its right or its lower neighbour, inside the
      grid. */
  predicate Adjacent(r: int, c: int, l: Link) {
    || (l.r2 == r && l.c2 == c + 1 && c < Size - 1)
    || (l.r2 == r + 1 && l.c2 == c && r < Size - 1)
  }

  predicate WellPlaced(cs: LinkGrid) {
    forall r, c :: 0 <= r < Size && 0 <= c < Size && cs[r][c].Some? ==> Adjacent(r, c, cs[r][c].value)
  }

  /** Every link states truthfully whether the solution's two cells agree. */
  predicate Agrees(cs: LinkGrid, sol: Board)
    requires WellPlaced(cs)
  {
    forall r, c :: 0 <= r < Size && 0 <= c < Size && cs[r][c].Some? ==>
      (cs[r][c].value.kind == Same <==> sol[r][c] == sol[cs[r][c].value.r2][cs[r][c].value.c2])
  }

  /** The cells that carry a link. */
  function Origins(cs: LinkGrid): set<(int, int)> {
    set r, c | 0 <= r < Size && 0 <= c < Size && cs[r][c].Some? :: (r, c)
  }

  /** The neighbour a sample points at: right when `c < SIZE - 1`, down when
      `r < SIZE - 1`, and nothing when that would leave the grid. */
  function Target(r: int, c: int, right: bool): (t: Option<(int, int)>)
    ensures t.Some? <==> if right then c < Size - 1 else r < Size - 1
    ensures InBounds(r, c) && t.Some? ==>
      InBounds(t.value.0, t.value.1) && Idx(t.value.0, t.value.1) == Idx(r, c) + (if right then 1 else Size)
  {
    if right && c < Size - 1 then Some((r, c + 1))
    else if !right && r < Size - 1 then Some((r + 1, c))
    else None
  }

  /** One pass of the sampling loop at origin (r, c). The sample is rejected
      (None) when its target leaves the grid or the origin already has a link;
      otherwise exactly one link is added, at (r, c), with the sign the
      solution dictates, and every other cell keeps its link. */
  function Sample(cs: LinkGrid, sol: Board, r: int, c: int, right: bool): (out: Option<LinkGrid>)
    requires InBounds(r, c)
    ensures out.Some? <==> Target(r, c, right).Some? && cs[r][c].None?
    ensures out.Some? ==> Origins(out.value) == Origins(cs) + {(r, c)} && (r, c) !in Origins(cs)
    ensures out.Some? ==> forall i, j :: 0 <= i < Size && 0 <= j < Size && (i, j) != (r, c) ==> out.value[i][j] == cs[i][j]
    ensures out.Some? && WellPlaced(cs) ==> WellPlaced(out.value)
    ensures out.Some? && WellPlaced(cs) && Agrees(cs, sol) ==> Agrees(out.value, sol)
  {
    match Target(r, c, right)
    case None => None
    case Some((r2, c2)) =>
      if cs[r][c].Some? then None
      else
        var kind := if sol[r][c] == sol[r2][c2] then Same else Differ;
        var row: seq<Option<Link>> := cs[r][c := Some(Link(kind, r2, c2))];
        var next: LinkGrid := cs[r := row];
        assert Origins(next) == Origins(cs) + {(r, c)};
        Some(next)
  }

  /** The cell (Size - 1, Size - 1) has neither a right nor a lower
      neighbour, so no more than Size * Size - 1 = 35 links can ever exist:
      a request for more never ends in the source. */
  lemma AtMost35(cs: LinkGrid)
    requires WellPlaced(cs)
    ensures |Origins(cs)| <= Size * Size - 1
  {
    var cells := AllCells();
    var head := cells[..Size * Size - 1];
    var room := set x | x in head;
    AllCellsDistinct();
    assert Distinct(head);
    DistinctCard(head);
    forall o | o in Origins(cs)
      ensures o in room
    {
      assert cells[Idx(o.0, o.1)] == o;
      assert head[Idx(o.0, o.1)] == o;
    }
    SubsetCard(Origins(cs), room);
  }

  /** `addRandomConstraints(count)`, with at most `attempts` samples instead
      of an unbounded loop. Each sample draws a row, a column and a direction
      (a draw `d` with `d % 2 == 0` means right). Starting from `start`, the
      links added are all placed next to their origin and agree with the
      solution; `added` of them are new, never more than `count`, and the
      old links stay. `added < count` is the case where the attempts ran out
      (the source would keep sampling). */
  method AddRandomConstraints(start: LinkGrid, sol: Board, count: nat, src: Source, k: nat, attempts: nat)
    returns (cs: LinkGrid, added: nat, next: nat)
    requires WellPlaced(start) && Agrees(start, sol)
    ensures WellPlaced(cs) && Agrees(cs, sol)
    ensures Origins(start) <= Origins(cs)
    ensures forall r, c :: 0 <= r < Size && 0 <= c < Size && start[r][c].Some? ==> cs[r][c] == start[r][c]
    ensures |Origins(cs)| == |Origins(start)| + added
    ensures added <= count
    ensures added < count ==> next == k + 3 * attempts
    ensures next >= k
  {
    cs := start;
    added := 0;
    next := k;
    var tries := 0;
    while added < count && tries < attempts
      invariant WellPlaced(cs) && Agrees(cs, sol)
      invariant Origins(start) <= Origins(cs)
      invariant forall r, c :: 0 <= r < Size && 0 <= c < Size && start[r][c].Some? ==> cs[r][c] == start[r][c]
      invariant |Origins(cs)| == |Origins(start)| + added
      invariant added <= count && tries <= attempts
      invariant next == k + 3 * tries
    {
      var r := Draw(src, next, Size);
      var c := Draw(src, next + 1, Size);
      var right := Draw(src, next + 2, 2) == 0;
      next := next + 3;
      tries := tries + 1;
      var sample := Sample(cs, sol, r, c, right);
      if sample.Some? {
        cs := sample.value;
        added := added + 1;
      }
    }
  }
}
