# Tango and the level system, modelled in Dafny

This project models two parts of the Backbenchers games site.

**Tango** (`assets/js/tango.js`) is a 6 × 6 binary puzzle. Cells hold 0
(empty), 1 (circle) or 2 (moon). The rules:
- every row and every column holds at most three of each symbol;
- no row or column holds three equal symbols in a row;
- '=' and '≠' signs between neighbouring cells must hold.

The model covers:
- the solution generator: `isValid` and the randomised depth-first search `backtrack`;
- the prefill step, which shuffles the cell list and keeps the first `prefill` cells as locked clues;
- the constraint planner `addRandomConstraints`;
- the click handler, which cycles empty → circle → moon → empty;
- the validator `checkBoard` with `isBalanced` and `hasTriple`;
- the reset button, `resetUserEntries`.

**The level system** (`assets/js/game-level-system.js`) keeps a player
record with level, XP, counters, streaks and unlocked achievements. The
model covers the level thresholds, the default record, the achievement
table, `addXP` (level-up loop), `recordGameResult` and
`checkAchievements`. `addXP` and `checkAchievements` call each other:
achievement XP can raise the level, and a level-up rescans the whole table.

Every operation is a pure function or a method on immutable values. The
source's module-level state (`board`, `solution`, `constraints`,
`playerData`) becomes an argument and a result. `Math.random` becomes a
`Source`, a function from call number to a natural number. The k-th call
scaled to `[0, n)` is `src(k) % n`, and each random step returns the next
unused call number.

Modules, in dependency order:
- `Seqs`: distinctness of sequences;
- `Grid`: the board, its rows and columns, and symbol counts;
- `Rules`: `isBalanced`, `hasTriple` and what a solved board is;
- `Random`: draws and `shuffle`;
- `Generator`: `isValid`, `backtrack` and `generateValidBoard`;
- `Puzzle`: prefill, click and reset;
- `Links`: the constraint signs and `addRandomConstraints`;
- `Validator`: `checkBoard`;
- `Game`: a whole game session;
- `Levels`: the XP and achievement system.

Main results:
- **Generator.** The search is sound: a board it returns is solved and
  keeps the cells already placed. It is complete: when some solution
  extends the cells placed so far, the search finds one. So
  `generateValidBoard` never fails from the empty grid, whatever the random
  source. The source ignores `backtrack`'s result; the model proves it is
  always true.
- **Validator.** `checkBoard` reports nothing exactly when every row,
  every column and every link is fine. Otherwise it reports the first
  violation in scan order. A board that agrees with the solution on its
  filled cells always passes.
- **Levels.** XP minus the table XP of the unlocked achievements grows by
  exactly the XP awarded. From a valid record, the level becomes the
  higher of the old level and the level the final XP reaches. After every
  game, a missing achievement is in the list exactly when its condition
  holds in the final record, and none is added twice. The conditions are
  read in the final record, not in the record as it stood when the scan
  reached each entry (see "Left out").

## Model

| member | source | states |
|---|---|---|
| Grid.Set | assets/js/tango.js:38 | writing value v at (r, c) changes that cell to v and leaves every other cell as it was |
| Grid.Col | assets/js/tango.js:41 | the column read off the board: entry k is row k's cell in column j |
| Grid.Next | assets/js/tango.js:57 | the cell after (r, c) in row-major order is one row-major index further on |
| Grid.Count | assets/js/tango.js:43-44 | the count of a value in a line never exceeds the line's length |
| Grid.CountMultiplicity | assets/js/tango.js:43-44 | `filter(v => v === val).length` is the number of times val occurs in the line (its multiplicity) |
| Grid.LinesOfSet | assets/js/tango.js:37-41 | writing a cell changes only its own row and column, each at the written position |
| Grid.CountFull | assets/js/tango.js:202-205 | in a line with no empty cell, the circles and moons together make up the whole line |
| Grid.AllCells | assets/js/tango.js:100-105 | the list of all cells, in row-major order: entry i is the cell at row-major index i, so all 36 cells appear |
| Grid.AllCellsCover | assets/js/tango.js:100-105 | the cell list covers the board: its set of entries is all 36 cells |
| Rules.TripleFrom | assets/js/tango.js:208-213 | the scan finds a triple from position i on exactly when three equal non-empty cells start at some j ≥ i |
| Rules.HasTriple | assets/js/tango.js:208-213 | `hasTriple` is true exactly when three equal non-empty cells stand in a row somewhere |
| Rules.LineOkBelow | assets/js/tango.js:202-213 | emptying cells of a line never breaks balance or creates a triple |
| Rules.IsBalanced | assets/js/tango.js:202-206 | a full line of six is balanced exactly when it holds three circles and three moons |
| Rules.BalancedMultiplicity | assets/js/tango.js:202-206 | a line is balanced exactly when neither symbol occurs more than three times in it |
| Rules.SolvedExact | assets/js/tango.js:202-213 | every row and column of a solved board holds exactly three of each symbol |
| Rules.BalancedWithTriple | assets/js/tango.js:174 | 1 1 1 2 2 2 passes `isBalanced` but fails `hasTriple`, so both tests are needed |
| Rules.EmptyBreaksRun | assets/js/tango.js:210 | empty cells never form a triple, so 1 1 0 1 1 0 has none |
| Random.Draw | assets/js/tango.js:130-131 | `Math.floor(Math.random() * n)` is below n |
| Random.Swap | assets/js/tango.js:218 | the swap exchanges the two positions and keeps every other entry |
| Random.SwapPermutes | assets/js/tango.js:218 | a swap keeps the multiset of entries |
| Random.ShuffleFrom | assets/js/tango.js:216-219 | the Fisher–Yates loop from position i down keeps the multiset of entries and uses exactly i draws |
| Random.Shuffle | assets/js/tango.js:215-220 | `shuffle` returns a permutation of its input and uses \|a\| - 1 draws |
| Random.ShufflePair | assets/js/tango.js:58-59 | shuffling [1, 2] gives [1, 2] or [2, 1] |
| Generator.IsValid | assets/js/tango.js:37-52 | on a board whose lines were all fine and whose cell (r, c) is empty, `isValid(r, c, v)` holds exactly when writing v keeps every row and column of the board balanced and triple-free |
| Generator.LocalCheck | assets/js/tango.js:37-52 | looking only at the written row and column, and only at the written symbol, decides whether the whole board stays within both rules |
| Generator.Advance | assets/js/tango.js:61-64 | a value that `isValid` accepts at the next cell of a valid prefix extends that prefix by one cell |
| Generator.Backtrack | assets/js/tango.js:54-70 | from a valid prefix, success gives a solved board that keeps the prefix; failure leaves the board as it was, with (r, c) empty again |
| Generator.TryValues | assets/js/tango.js:61-68 | trying the shuffled values in turn: success gives a solved board extending the prefix; failure resets (r, c) to 0 |
| Generator.BacktrackComplete | assets/js/tango.js:54-70 | if some solved board extends the current prefix, `backtrack` succeeds |
| Generator.TryValuesComplete | assets/js/tango.js:61-66 | if some solved board extends the prefix, trying the values [1, 2] in either order succeeds |
| Generator.RightValue | assets/js/tango.js:61-64 | the solution's own symbol at (r, c) passes `isValid` and extends the prefix, still agreeing with the solution |
| Generator.WrongValueFirst | assets/js/tango.js:61-68 | when the first value tried is not the solution's, the loop still reaches the solution's value |
| Generator.CheckerboardSolved | assets/js/tango.js:34-35 | a solved 6 × 6 board exists (alternating rows 1 2 1 2 1 2 and 2 1 2 1 2 1) |
| Generator.GenerateValidBoard | assets/js/tango.js:34-73 | from the empty grid the generator always succeeds and the solution is a solved board, for any random source |
| Puzzle.Keep | assets/js/tango.js:107-108 | a cell is kept exactly when it is among the first `prefill` entries of the list; all cells are kept when `prefill` is at least the list's length, none when it is 0 |
| Puzzle.Prefill | assets/js/tango.js:110-122 | a kept cell shows its solution value and is locked; every other cell is emptied and unlocked |
| Puzzle.UnlockedCount | assets/js/tango.js:110-122 | locked and editable cells together are all 36 cells |
| Puzzle.KeepCount | assets/js/tango.js:106-108 | the first `prefill` entries of a shuffled cell list name min(prefill, 36) distinct cells |
| Puzzle.ApplyPrefill | assets/js/tango.js:100-122 | after prefill exactly min(prefill, 36) cells are locked with their solution values, the rest are empty; 35 draws are used |
| Puzzle.Cycle | assets/js/tango.js:90 | `(v + 1) % 3` always changes the value; only a moon becomes empty, and otherwise the value goes up by one |
| Puzzle.Toggle | assets/js/tango.js:88-94 | a click advances an unlocked cell 0 → 1 → 2 → 0 and changes nothing else; a locked cell is untouched |
| Puzzle.ToggleThrice | assets/js/tango.js:90 | three clicks on one cell give the board back |
| Puzzle.ResetUserEntries | assets/js/tango.js:222-233 | reset empties every unlocked cell and keeps every locked one |
| Puzzle.ResetIdempotent | assets/js/tango.js:222-233 | resetting twice is resetting once |
| Puzzle.ResetAfterToggle | assets/js/tango.js:88-94 | a click never changes what a reset gives |
| Puzzle.ResetRestoresPrefill | assets/js/tango.js:222-233 | on a board whose locked cells still show the solution, reset gives back the freshly prefilled board |
| Links.NoLinks | assets/js/tango.js:79 | the cleared constraint grid has no link |
| Links.Target | assets/js/tango.js:135-137 | a sample has a target exactly when its direction does not leave the grid; the target is the next cell to the right or the one below |
| Links.Sample | assets/js/tango.js:133-147 | a sample is kept exactly when its target is on the board and the origin is free; it then adds exactly one link at the origin, with the sign the solution dictates, and changes nothing else |
| Links.AtMost35 | assets/js/tango.js:127-149 | at most 35 links fit, because the bottom-right cell has no right or lower neighbour |
| Links.AddRandomConstraints | assets/js/tango.js:127-149 | the loop adds `added` ≤ `count` new links, keeps the old ones, places each next to its origin and makes each agree with the solution; stopping short of `count` means the attempts ran out |
| Validator.ScanLines | assets/js/tango.js:170-183 | the line loop from i reports nothing exactly when lines i..5 are fine, else the first bad row or column, a row before its column |
| Validator.Holds | assets/js/tango.js:189-192 | a link is broken exactly when no way of filling its empty cells with symbols would satisfy it: '=' needs equal symbols, '≠' different ones, and a link with an empty cell is never reported |
| Validator.LinksOkStep | assets/js/tango.js:185-199 | the links from (r, c) on all hold exactly when the one at (r, c) holds and those after it do |
| Validator.ScanLinks | assets/js/tango.js:185-199 | the link loop reports nothing exactly when every link from (r, c) on holds, else the first failing link with both cells filled |
| Validator.CheckBoard | assets/js/tango.js:167-200 | `checkBoard` reports nothing exactly when every row, column and link is fine; otherwise the first violation in scan order |
| Validator.ConsistentBoardValid | assets/js/tango.js:167-200 | a board that agrees with the solution on its filled cells draws no complaint |
| Validator.FullAndValidIsSolved | assets/js/tango.js:167-200 | a full board that draws no complaint is solved and keeps every link |
| Validator.TripleRowReported | assets/js/tango.js:174-176 | a first row 1 1 1 2 2 2 is reported as `Invalid row 1` |
| Validator.TwoCellLineOk | assets/js/tango.js:202-213 | a line empty from its third cell on breaks no line rule |
| Validator.TwoCellBoardOk | assets/js/tango.js:170-183 | a board filled only at (0, 0) and (0, 1) breaks no line rule |
| Validator.SameLinkScenario | assets/js/tango.js:188-195 | an '=' link between two filled cells passes when they match and is reported, naming that pair, when they differ |
| Game.ProfileOf | assets/js/tango.js:9-13 | each difficulty prefills as many cells as it places links, at least one and fewer than the whole grid |
| Game.HarderFewerHints | assets/js/tango.js:9-13 | hard gives fewer hints than medium, and medium fewer than easy |
| Game.GenerateGame | assets/js/tango.js:29-32 | a new game is coherent and shows exactly `prefill` locked cells with all others empty; it holds at most `constraints` links, and the validator finds nothing wrong |
| Game.PlanLinks | assets/js/tango.js:79-124 | planning from a cleared grid gives `added` ≤ `count` well-placed links, all agreeing with the solution |
| Game.FreshIsCoherent | assets/js/tango.js:75-124 | a freshly built game is coherent and passes the validator |
| Game.Click | assets/js/tango.js:88-94 | a click on a locked cell does nothing and gives no verdict; on an unlocked cell the board becomes the toggled board and the verdict is `checkBoard`'s on it; coherence is kept |
| Game.Reset | assets/js/tango.js:21-23 | reset keeps coherence and gives back exactly the board the game started with |
| Levels.ThresholdsShape | assets/js/game-level-system.js:11 | there are 15 thresholds, starting at 0 and strictly rising |
| Levels.CountFromPrefix | assets/js/game-level-system.js:11 | in a strictly rising list, the entries at most x form a prefix |
| Levels.ReachedPrefix | assets/js/game-level-system.js:346-347 | level L + 1 is reached exactly when the XP is at least `levelThresholds[L]` |
| Levels.ReachedMonotone | assets/js/game-level-system.js:346-349 | more XP never reaches fewer thresholds |
| Levels.CaughtMeans | assets/js/game-level-system.js:346-347 | "level at least what the XP reaches" is the loop's exit condition: level 15, or XP below the next threshold |
| Levels.LevelUp | assets/js/game-level-system.js:346-349 | the level-up loop ends at the higher of the old level and the level the XP reaches, and changes nothing else |
| Levels.NewPlayer | assets/js/game-level-system.js:26-39 | the default record has level 1, 0 XP and no achievements, and meets no achievement condition |
| Levels.NewPlayerValid | assets/js/game-level-system.js:26-39 | the default record has level 1, 0 XP and no achievements, and is well formed |
| Levels.Qualifies | assets/js/game-level-system.js:400-434 | a record with no game played, no score of 100, a level below 5, no streak of 5 and no perfect game meets no condition |
| Levels.QualifiesMonotone | assets/js/game-level-system.js:400-434 | every condition is a lower bound: the same counters at a level no lower keep every condition met |
| Levels.EarnedChain | assets/js/game-level-system.js:436-439 | two steps that each append only achievements whose condition holds together append only such achievements |
| Levels.AddXP | assets/js/game-level-system.js:341-358 | XP grows by the amount plus the XP of each newly unlocked achievement; the level becomes the higher of the old level and the one the final XP reaches; achievements are only appended, and each one appended meets its condition in the final record; after a level-up every qualifying achievement is unlocked |
| Levels.CheckFrom | assets/js/game-level-system.js:396-442 | the scan adds only the table XP of what it appends, each appended achievement meets its condition in the final record, and, when the entries before i were settled, every qualifying achievement ends up unlocked |
| Levels.Unlock | assets/js/game-level-system.js:436-440 | unlocking a qualifying entry and awarding its XP, then scanning on, adds only table XP, appends only achievements whose condition holds in the final record, and leaves every qualifying achievement unlocked when the earlier entries were settled |
| Levels.SkipSettles | assets/js/game-level-system.js:397-434 | an entry already unlocked, or whose condition fails, needs no action |
| Levels.UnlockGrows | assets/js/game-level-system.js:436-439 | unlocking an entry takes it off the pending set, adds its table XP and adds no repeat |
| Levels.UnlockSettles | assets/js/game-level-system.js:436-440 | after an unlock through `addXP`, the entries up to and including it are settled |
| Levels.Entry | assets/js/game-level-system.js:46-60 | each key's table entry is filed under that key and awards between 25 and 500 XP; `Xp` reads the XP an unlock credits from this entry |
| Levels.TableComplete | assets/js/game-level-system.js:46-60 | every achievement key has an entry in the table |
| Levels.ExactlyEarned | assets/js/game-level-system.js:396-442 | when every appended achievement meets its condition in the final record and every qualifying one is unlocked, a missing key is in the list exactly when its condition holds there |
| Levels.CheckAchievements | assets/js/game-level-system.js:392-448 | afterwards a missing key is in the list exactly when its condition holds in the final record, none is added twice, and the XP grows by exactly the table XP of those added |
| Levels.ScanSettled | assets/js/game-level-system.js:396-442 | a scan with nothing qualifying left changes nothing |
| Levels.CheckTwice | assets/js/game-level-system.js:392-448 | checking achievements twice is checking them once |
| Levels.Played | assets/js/game-level-system.js:361-379 | one more game; the score added to the total; the best score is the larger of old best and score; a win extends the streak and raises the record if it is beaten, a loss resets the streak; a perfect game is counted |
| Levels.RecordGameResult | assets/js/game-level-system.js:360-390 | after a game the counters are `Played`'s and XP grows by ⌊score/10⌋ + 50 for a win + 100 for a perfect game + 25 at a streak of 3 or more, plus achievement XP; the record stays well formed; every qualifying achievement is unlocked, and each one added meets its condition in the final record |
| Levels.RecordExact | assets/js/game-level-system.js:360-390 | after a game a missing key is in the list exactly when its condition holds in the final record |
| Levels.GameXp | assets/js/game-level-system.js:382-385 | a game's XP is the score's tenth plus at most 175 of bonuses, and no bonus at all exactly for a lost, imperfect game below a streak of 3 |
| Levels.FirstWin | assets/js/game-level-system.js:360-390 | a new player winning a first game at score 0 ends at level 2 with 100 XP and First Steps |

## Left out

- The page: table and cell elements, text symbols, CSS classes, the
  difficulty selector, `window.onload`, `showRules`, and the level UI
  (`createLevelUI`, `updateLevelDisplay`, notifications, achievement
  lists). `checkBoard`'s message is a `Verdict` with 0-based indices. The
  page shows the same indices plus one.
- `drawConstraint`: screen geometry only.
- `Math.random`: it is a parameter (`Source`). The direction test
  `Math.random() < 0.5` becomes "the draw is even".
- Links.AddRandomConstraints: runs at most `attempts` samples instead of
  looping until `count` links exist. The source's loop never ends if more
  than 35 links are requested (see `Links.AtMost35`); the difficulty
  profiles ask for at most 8.
- Game.GenerateGame: the link count is `added` ≤ `constraints` rather than
  exactly `constraints`, because of the attempt bound above.
- Game.PlanLinks: the link count is `added` ≤ `count` rather than exactly
  `count`, because of the attempt bound above.
- Game.Reset: does not model that the reset button also clears the
  message.
- localStorage: the saved-record branch of `loadPlayerData` and
  `savePlayerData`. Only the default record is modelled.
- `totalPlayTime` is never updated by the modelled code; the model keeps
  it unchanged.
- The `unlocked: false` field of the achievement table is never read. The
  `reason` argument of `addXP` is never used.
- Levels.RecordGameResult: `score` is an integer. JavaScript accepts any
  number; for integers, `Math.floor(score / 10)` equals Dafny's `/`,
  including negative scores.
- Levels.AddXP: an appended achievement is shown to meet its condition
  in the final record, not in the record as it stood when the scan
  reached it. So the contract does not rule out a level achievement that
  qualifies only thanks to its own XP. The source tests `level_5` and
  `level_10` before their XP is added.
- Levels.CheckFrom: the same final-record reading as `Levels.AddXP`.
- Levels.Unlock: the same final-record reading as `Levels.AddXP`.
- Levels.CheckAchievements: the exact set is stated against the final
  record. So it does not rule out a `level_5` or `level_10` that only its
  own XP qualifies. The order in which keys are appended is not stated.
- Levels.RecordGameResult: the same final-record reading as
  `Levels.CheckAchievements`.
- Levels.RecordExact: the same final-record reading as
  `Levels.CheckAchievements`.
- `assets/js/header.js` is not part of this model.
