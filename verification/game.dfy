/** One Tango game: `generateGame` (generator, prefill, then constraint
    planner), a click on a cell followed by `checkBoard`, and the reset
    button. The source keeps this state in module-level variables; here it
    is one immutable record that every step takes and returns. */
module Game {
  import opened Grid
  import opened Rules
  import opened Random
  import opened Generator
  import opened Puzzle
  import opened Links
  import opened Validator

  datatype Difficulty = Easy | Medium | Hard

  /** An entry of `DifficultyLevels`. */
  datatype Profile = Profile(constraints: nat, prefill: nat)

  /** `DifficultyLevels`: each level prefills as many cells as it places
      links, always some and fewer than the whole grid. */
  function ProfileOf(d: Difficulty): (p: Profile)
    ensures p.prefill == p.constraints
    ensures 0 < p.prefill < Size * Size
  {
    match d
    case Easy => Profile(8, 8)
    case Medium => Profile(6, 6)
    case Hard => Profile(5, 5)
  }

  /** A harder level gives fewer hints. */
  lemma HarderFewerHints()
    ensures ProfileOf(Hard).prefill < ProfileOf(Medium).prefill < ProfileOf(Easy).prefill
  {
  }

  datatype Session = Session(solution: Board, board: Board, locked: Mask, links: LinkGrid)

  /** What every step keeps: the solution is valid, every link sits next to
      its origin and agrees with the solution, and every locked cell shows
      the solution's symbol. */
  ghost predicate Coherent(s: Session) {
    && Solved(s.solution)
    && WellPlaced(s.links) && Agrees(s.links, s.solution)
    && forall r, c :: 0 <= r < Size && 0 <= c < Size && s.locked[r][c] ==> s.board[r][c] == s.solution[r][c]
  }

  /** `generateGame` at difficulty `d`, with at most `attempts` constraint
      samples. The new game is coherent, shows exactly `prefill` locked
      cells and nothing else, holds `added` links (at most the profile's
      count), and the validator finds nothing wrong with it. */
  method GenerateGame(d: Difficulty, src: Source, k: nat, attempts: nat)
    returns (s: Session, added: nat, next: nat)
    ensures Coherent(s) && Fresh(s.board, s.locked, s.solution)
    ensures |Locked(s.locked)| == ProfileOf(d).prefill
    ensures |Unlocked(s.locked)| == Size * Size - ProfileOf(d).prefill
    ensures |Origins(s.links)| == added <= ProfileOf(d).constraints
    ensures CheckBoard(s.board, s.links) == Valid
    ensures next >= k
  {
    var profile := ProfileOf(d);
    assert profile.prefill <= Size * Size;
    var gen := GenerateValidBoard(src, k);
    var sol := gen.grid;
    var (board, mask, k1) := ApplyPrefill(sol, profile.prefill, src, gen.next);
    var cs;
    cs, added, next := PlanLinks(sol, profile.constraints, src, k1, attempts);
    s := Session(sol, board, mask, cs);
    FreshIsCoherent(s);
  }

  /** `applyPrefillAndConstraints` empties the constraint grid and then
      calls `addRandomConstraints(count)`. */
  method PlanLinks(sol: Board, count: nat, src: Source, k: nat, attempts: nat)
    returns (cs: LinkGrid, added: nat, next: nat)
    ensures WellPlaced(cs) && Agrees(cs, sol)
    ensures |Origins(cs)| == added <= count
    ensures next >= k
  {
    var none := NoLinks();
    assert WellPlaced(none) && Agrees(none, sol);
    cs, added, next := AddRandomConstraints(none, sol, count, src, k, attempts);
  }

  /** A freshly built game is coherent and has nothing to complain about. */
  lemma FreshIsCoherent(s: Session)
    requires Solved(s.solution) && Fresh(s.board, s.locked, s.solution)
    requires WellPlaced(s.links) && Agrees(s.links, s.solution)
    ensures Coherent(s) && CheckBoard(s.board, s.links) == Valid
  {
    assert Below(s.board, s.solution);
    ConsistentBoardValid(s.board, s.links, s.solution);
  }

  /** A click on (r, c): the handler ignores a locked cell entirely (no
      verdict, the message stays); an unlocked cell is toggled and then
      `checkBoard` judges the new board. A coherent game stays coherent. */
  function Click(s: Session, r: int, c: int): (out: (Session, Option<Verdict>))
    requires InBounds(r, c) && WellPlaced(s.links)
    ensures Coherent(s) ==> Coherent(out.0)
    ensures out.0.solution == s.solution && out.0.locked == s.locked && out.0.links == s.links
    ensures s.locked[r][c] ==> out == (s, None)
    ensures !s.locked[r][c] ==> out.0.board == Toggle(s.board, s.locked, r, c)
    ensures !s.locked[r][c] ==> out.1 == Some(CheckBoard(out.0.board, s.links))
  {
    if s.locked[r][c] then (s, None)
    else
      var board := Toggle(s.board, s.locked, r, c);
      (s.(board := board), Some(CheckBoard(board, s.links)))
  }

  /** The reset button. A coherent game stays coherent, and the board goes
      back to exactly the one the game started with. */
  function Reset(s: Session): (out: Session)
    ensures Coherent(s) ==> Coherent(out)
    ensures out.solution == s.solution && out.locked == s.locked && out.links == s.links
    ensures forall initial :: Coherent(s) && Fresh(initial, s.locked, s.solution) ==> out.board == initial
  {
    var out := s.(board := ResetUserEntries(s.board, s.locked));
    forall initial | Coherent(s) && Fresh(initial, s.locked, s.solution)
      ensures out.board == initial
    {
      ResetRestoresPrefill(initial, s.board, s.locked, s.solution);
    }
    out
  }
}
