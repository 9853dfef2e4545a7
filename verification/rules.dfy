/** The two line rules of Tango, shared by the generator and the validator:
    balance (at most Half of either symbol) and no three equal symbols in a
    row. */
module Rules {
  import opened Grid

  /** `isBalanced`: neither symbol occurs more than Half times. Empty cells
      are not counted, so a partly filled line can already be rejected; a
      full line of Size cells is balanced exactly when it holds Half of
      each symbol. */
  function IsBalanced(line: seq<Cell>): (b: bool)
    ensures |line| == Size && (forall k :: 0 <= k < |line| ==> line[k] != 0) ==>
      (b <==> Count(line, 1) == Half && Count(line, 2) == Half)
  {
    CountFull(line);
    Count(line, 1) <= Half && Count(line, 2) <= Half
  }

  /** `isBalanced` in terms of how often each symbol occurs in the line. */
  lemma BalancedMultiplicity(line: seq<Cell>)
    ensures IsBalanced(line) <==> multiset(line)[1] <= Half && multiset(line)[2] <= Half
  {
    CountMultiplicity(line, 1);
    CountMultiplicity(line, 2);
  }

  /** Three equal symbols start at index `i` of `line`. */
  predicate TripleAt(line: seq<Cell>, i: int) {
    0 <= i && i + 2 < |line| && line[i] != 0 && line[i] == line[i + 1] && line[i] == line[i + 2]
  }

  /** The left-to-right window scan of `hasTriple`, from window `i` on. */
  function TripleFrom(line: seq<Cell>, i: nat): (found: bool)
    ensures found <==> exists j :: i <= j && TripleAt(line, j)
    decreases |line| - i
  {
    if i + 2 >= |line| then false
    else if line[i] != 0 && line[i] == line[i + 1] && line[i] == line[i + 2] then
      assert TripleAt(line, i);
      true
    else TripleFrom(line, i + 1)
  }

  function HasTriple(line: seq<Cell>): (found: bool)
    ensures found <==> exists j :: TripleAt(line, j)
  {
    TripleFrom(line, 0)
  }

  /** A line that breaks neither rule. */
  predicate LineOk(line: seq<Cell>) {
    IsBalanced(line) && !HasTriple(line)
  }

  /** Every row and every column of `g` breaks neither rule. */
  predicate AllLinesOk(g: Board) {
    forall i :: 0 <= i < Size ==> LineOk(Row(g, i)) && LineOk(Col(g, i))
  }

  /** A finished solution: no empty cell and every line keeps both rules. */
  predicate Solved(g: Board) {
    Full(g) && AllLinesOk(g)
  }

  /** Emptying cells of a line that keeps both rules keeps both rules. */
  lemma LineOkBelow(a: seq<Cell>, b: seq<Cell>)
    requires LineBelow(a, b) && LineOk(b)
    ensures LineOk(a)
  {
    CountBelow(a, b, 1);
    CountBelow(a, b, 2);
    forall j | TripleAt(a, j)
      ensures TripleAt(b, j)
    {
    }
  }

  /** Any board that agrees with a rule-abiding board on its own non-empty
      cells is rule-abiding too. */
  lemma AllLinesOkBelow(g: Board, h: Board)
    requires Below(g, h) && AllLinesOk(h)
    ensures AllLinesOk(g)
  {
    LinesBelow(g, h);
    forall i | 0 <= i < Size
      ensures LineOk(Row(g, i)) && LineOk(Col(g, i))
    {
      LineOkBelow(Row(g, i), Row(h, i));
      LineOkBelow(Col(g, i), Col(h, i));
    }
  }

  /** In a solution every row and every column holds exactly three of each
      symbol and no three equal symbols in a row. */
  lemma SolvedExact(g: Board)
    requires Solved(g)
    ensures forall i :: 0 <= i < Size ==>
      Count(Row(g, i), 1) == 3 && Count(Row(g, i), 2) == 3 && !HasTriple(Row(g, i))
    ensures forall i :: 0 <= i < Size ==>
      Count(Col(g, i), 1) == 3 && Count(Col(g, i), 2) == 3 && !HasTriple(Col(g, i))
  {
    forall i | 0 <= i < Size
      ensures Count(Row(g, i), 1) == 3 && Count(Row(g, i), 2) == 3
      ensures Count(Col(g, i), 1) == 3 && Count(Col(g, i), 2) == 3
    {
      assert IsBalanced(Row(g, i)) && IsBalanced(Col(g, i));
    }
  }

  /** A balanced line may still hold a triple: 1 1 1 2 2 2. */
  lemma BalancedWithTriple()
    ensures IsBalanced([1, 1, 1, 2, 2, 2]) && HasTriple([1, 1, 1, 2, 2, 2])
    ensures !LineOk([1, 1, 1, 2, 2, 2])
  {
    assert TripleAt([1, 1, 1, 2, 2, 2], 0);
  }

  /** Empty cells break a run: 1 1 0 1 1 0 has no triple. */
  lemma EmptyBreaksRun()
    ensures !HasTriple([1, 1, 0, 1, 1, 0])
  {
  }
}
