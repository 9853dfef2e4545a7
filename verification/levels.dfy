/** The level, XP and achievement bookkeeping of `GameLevelSystem`:
    `addXP`, `recordGameResult` and `checkAchievements` on an immutable
    player record. `addXP` and `checkAchievements` call each other: a level
    gained by achievement XP triggers a fresh scan of every achievement. */
module Levels {
  import opened Seqs

  /** `levelThresholds`: level L + 1 starts at `Thresholds[L]` XP. */
  const Thresholds: seq<int> :=
    [0, 100, 250, 500, 1000, 2000, 3500, 5500, 8000, 12000, 17000, 25000, 35000, 50000, 75000]

  /** The highest level. */
  const MaxLevel: nat := |Thresholds|

  /** The keys of `initializeAchievements`, in table order. */
  datatype Key =
    | FirstGame | Score100 | Score500 | Score1000
    | Games10 | Games50 | Games100
    | Level5 | Level10 | Streak5 | PerfectGame

  datatype Achievement = Achievement(key: Key, name: string, description: string, xp: nat)

  /** The table entry of each key. */
  function Entry(k: Key): (a: Achievement)
    ensures a.key == k && 25 <= a.xp <= 500
  {
    match k
    case FirstGame => Achievement(FirstGame, "First Steps", "Play your first game", 50)
    case Score100 => Achievement(Score100, "Century", "Score 100 points", 25)
    case Score500 => Achievement(Score500, "High Roller", "Score 500 points", 50)
    case Score1000 => Achievement(Score1000, "Thousand Club", "Score 1000 points", 100)
    case Games10 => Achievement(Games10, "Dedicated", "Play 10 games", 75)
    case Games50 => Achievement(Games50, "Enthusiast", "Play 50 games", 150)
    case Games100 => Achievement(Games100, "Veteran", "Play 100 games", 300)
    case Level5 => Achievement(Level5, "Rising Star", "Reach level 5", 200)
    case Level10 => Achievement(Level10, "Expert", "Reach level 10", 500)
    case Streak5 => Achievement(Streak5, "On Fire", "Win 5 games in a row", 150)
    case PerfectGame => Achievement(PerfectGame, "Perfectionist", "Complete a perfect game", 200)
  }

  /** The XP each achievement awards, as its table entry lists it. */
  function Xp(k: Key): nat {
    Entry(k).xp
  }

  /** The order in which `Object.entries(this.achievements)` visits the
      table: insertion order. */
  const Table: seq<Key> := [
    FirstGame, Score100, Score500, Score1000,
    Games10, Games50, Games100,
    Level5, Level10, Streak5, PerfectGame
  ]

  datatype Stats = Stats(totalPlayTime: int, perfectGames: int, streakRecord: int, currentStreak: int)

  datatype Player = Player(
    level: int, xp: int, totalScore: int, gamesPlayed: int, bestScore: int,
    achievements: seq<Key>, stats: Stats)

  /** The record `loadPlayerData` starts from when nothing is stored: level
      1, no XP, no game played, and no achievement unlocked or earned. */
  function NewPlayer(): (p: Player)
    ensures p.level == 1 && p.xp == 0 && p.achievements == []
    ensures forall k :: !Qualifies(p, k)
  {
    Player(1, 0, 0, 0, 0, [], Stats(0, 0, 0, 0))
  }

  function Max(a: int, b: int): int {
    if a < b then b else a
  }

  /** How many thresholds `xp` has reached: the level that `xp` alone
      entitles a player to. */
  function Reached(xp: int): (n: nat)
    ensures n <= MaxLevel
  {
    CountFrom(Thresholds, xp, 0)
  }

  /** How many entries of `s` from index `i` on are at most `x`. */
  function CountFrom(s: seq<int>, x: int, i: nat): (n: nat)
    requires i <= |s|
    ensures n <= |s| - i
    decreases |s| - i
  {
    if i == |s| then 0 else (if s[i] <= x then 1 else 0) + CountFrom(s, x, i + 1)
  }

  predicate Increasing(s: seq<int>) {
    forall i :: 0 <= i < |s| - 1 ==> s[i] < s[i + 1]
  }

  /** The thresholds start at 0 and rise strictly. */
  lemma ThresholdsShape()
    ensures MaxLevel == 15 && Thresholds[0] == 0 && Increasing(Thresholds)
  {
    forall i | 0 <= i < |Thresholds| - 1
      ensures Thresholds[i] < Thresholds[i + 1]
    {
    }
  }

  /** In a rising sequence the entries from `i` on that are at most `x`
      form a prefix of that suffix. */
  lemma {:induction false} CountFromPrefix(s: seq<int>, x: int, i: nat)
    requires Increasing(s) && i <= |s|
    ensures forall j :: i <= j < |s| ==> (s[j] <= x <==> j < i + CountFrom(s, x, i))
    decreases |s| - i
  {
    if i < |s| {
      CountFromPrefix(s, x, i + 1);
      forall j | i <= j < |s|
        ensures s[j] <= x <==> j < i + CountFrom(s, x, i)
      {
        if s[j] <= x {
          RisingBelow(s, j, x);
        }
      }
    }
  }

  lemma {:induction false} RisingBelow(s: seq<int>, i: int, x: int)
    requires Increasing(s) && 0 <= i < |s| && s[i] <= x
    ensures forall j :: 0 <= j <= i ==> s[j] <= x
  {
    if i > 0 {
      RisingBelow(s, i - 1, x);
    }
  }

  /** Level L + 1 is reached exactly when the XP is at least
      `Thresholds[L]`. */
  lemma ReachedPrefix(xp: int)
    ensures forall i :: 0 <= i < MaxLevel ==> (Thresholds[i] <= xp <==> i < Reached(xp))
  {
    ThresholdsShape();
    CountFromPrefix(Thresholds, xp, 0);
  }

  /** More XP never reaches fewer thresholds. */
  lemma {:induction false} CountFromMonotone(s: seq<int>, x: int, y: int, i: nat)
    requires x <= y && i <= |s|
    ensures CountFrom(s, x, i) <= CountFrom(s, y, i)
    decreases |s| - i
  {
    if i < |s| {
      CountFromMonotone(s, x, y, i + 1);
    }
  }

  lemma ReachedMonotone(x: int, y: int)
    requires x <= y
    ensures Reached(x) <= Reached(y)
  {
    CountFromMonotone(Thresholds, x, y, 0);
  }

  /** Level `level` lies in 1 .. MaxLevel. */
  predicate ValidLevel(p: Player) {
    1 <= p.level <= MaxLevel
  }

  /** The level is at least what the XP entitles to; for a valid level this
      is the exit condition of the level-up loop: the level is the highest
      or the XP is below the next threshold. */
  predicate Caught(p: Player) {
    ValidLevel(p) && Reached(p.xp) <= p.level
  }

  lemma CaughtMeans(p: Player)
    requires ValidLevel(p)
    ensures Caught(p) <==> p.level == MaxLevel || p.xp < Thresholds[p.level]
  {
    ReachedPrefix(p.xp);
  }

  /** The `while` loop of `addXP`: raise the level while the next threshold
      is reached. The level climbs to the one the XP entitles to, or stays
      where it was if it is already there. */
  function LevelUp(p: Player): (q: Player)
    ensures q == p.(level := q.level)
    ensures q.level >= p.level
    ensures ValidLevel(p) ==> q.level == Max(p.level, Reached(p.xp)) && Caught(q)
    decreases MaxLevel - p.level
  {
    if p.level < MaxLevel && 0 <= p.level && p.xp >= Thresholds[p.level] then
      ReachedPrefix(p.xp);
      LevelUp(p.(level := p.level + 1))
    else
      ReachedPrefix(p.xp);
      p
  }

  /** The XP of the achievements in `ks`. */
  function Bonus(ks: seq<Key>): int {
    if ks == [] then 0 else Bonus(ks[..|ks| - 1]) + Xp(ks[|ks| - 1])
  }

  /** The cases of the `switch` in `checkAchievements`. A record that has
      played no game, never scored 100, is below level 5, has no streak of
      5 and no perfect game qualifies for nothing. */
  function Qualifies(p: Player, k: Key): (b: bool)
    ensures (p.gamesPlayed < 1 && p.bestScore < 100 && p.level < 5
             && p.stats.streakRecord < 5 && p.stats.perfectGames < 1) ==> !b
  {
    match k
    case FirstGame => p.gamesPlayed >= 1
    case Score100 => p.bestScore >= 100
    case Score500 => p.bestScore >= 500
    case Score1000 => p.bestScore >= 1000
    case Games10 => p.gamesPlayed >= 10
    case Games50 => p.gamesPlayed >= 50
    case Games100 => p.gamesPlayed >= 100
    case Level5 => p.level >= 5
    case Level10 => p.level >= 10
    case Streak5 => p.stats.streakRecord >= 5
    case PerfectGame => p.stats.perfectGames >= 1
  }

  /** Every achievement among the first `n` of the table whose condition
      holds is unlocked. */
  predicate UnlockedUpTo(p: Player, n: int) {
    forall i :: 0 <= i < n && i < |Table| && Qualifies(p, Table[i]) ==> Table[i] in p.achievements
  }

  /** The counters the achievement conditions read, other than the level. */
  predicate SameCounters(p: Player, q: Player) {
    q.totalScore == p.totalScore && q.gamesPlayed == p.gamesPlayed
    && q.bestScore == p.bestScore && q.stats == p.stats
  }

  /** Every achievement `q` holds beyond those of `p` meets its condition
      in `q`. */
  predicate Earned(p: Player, q: Player) {
    forall k :: k in q.achievements && k !in p.achievements ==> Qualifies(q, k)
  }

  /** Each condition is a lower bound on a counter or on the level, so a
      record with the same counters and at least the level keeps every
      condition it met. */
  lemma QualifiesMonotone(p: Player, q: Player, k: Key)
    requires SameCounters(p, q) && q.level >= p.level
    ensures Qualifies(p, k) ==> Qualifies(q, k)
  {
  }

  /** Two steps that each unlock only earned achievements, the second
      keeping the counters and not lowering the level, together unlock only
      earned achievements. */
  lemma EarnedChain(p: Player, m: Player, q: Player)
    requires Earned(p, m) && Earned(m, q)
    requires SameCounters(m, q) && q.level >= m.level
    ensures Earned(p, q)
  {
    forall k | k in q.achievements && k !in p.achievements
      ensures Qualifies(q, k)
    {
      if k in m.achievements {
        QualifiesMonotone(m, q, k);
      }
    }
  }

  /** Indices of the table entries not yet unlocked. */
  function Pending(p: Player): set<int> {
    set i | 0 <= i < |Table| && Table[i] !in p.achievements
  }

  /** `addXP(amount)`: add the XP, climb levels, and on a level-up run the
      achievement scan (whose unlocks add XP in turn).
      - the XP grows by `amount` plus the table XP of each newly unlocked
        achievement;
      - the achievement list only grows at its end and stays free of
        repetitions;
      - from a valid level, the level becomes the higher of the old level
        and the one the final XP entitles to;
      - either nothing but the XP changed, or every achievement whose
        condition holds is unlocked. */
  function AddXP(p: Player, amount: int): (q: Player)
    ensures SameCounters(p, q)
    ensures p.achievements <= q.achievements
    ensures q.xp - Bonus(q.achievements) == p.xp + amount - Bonus(p.achievements)
    ensures q.xp >= p.xp + amount && q.level >= p.level
    ensures ValidLevel(p) ==> q.level == Max(p.level, Reached(q.xp)) && Caught(q)
    ensures Distinct(p.achievements) ==> Distinct(q.achievements)
    ensures (q.level == p.level && q.achievements == p.achievements) || UnlockedUpTo(q, |Table|)
    ensures Earned(p, q)
    decreases Pending(p), 2, 0, 0
  {
    var raised := LevelUp(p.(xp := p.xp + amount));
    if raised.level > p.level then
      var q := CheckFrom(raised, 0);
      ReachedMonotone(raised.xp, q.xp);
      q
    else raised
  }

  /** The `forEach` of `checkAchievements`, from table entry `i` on. An
      entry already in the list is skipped; one whose condition holds is
      appended and its XP added through `addXP`. The scan never adds XP
      other than the table XP of what it unlocks, and on exit every
      achievement whose condition holds is unlocked, provided the entries
      before `i` were already settled. */
  function CheckFrom(p: Player, i: int): (q: Player)
    requires 0 <= i <= |Table|
    ensures SameCounters(p, q)
    ensures p.achievements <= q.achievements
    ensures q.xp - Bonus(q.achievements) == p.xp - Bonus(p.achievements)
    ensures q.xp >= p.xp && q.level >= p.level
    ensures Caught(p) ==> q.level == Max(p.level, Reached(q.xp)) && Caught(q)
    ensures Distinct(p.achievements) ==> Distinct(q.achievements)
    ensures UnlockedUpTo(p, i) ==> UnlockedUpTo(q, |Table|)
    ensures Earned(p, q)
    decreases Pending(p), 1, |Table| - i, 1
  {
    if i == |Table| then p
    else if Table[i] in p.achievements || !Qualifies(p, Table[i]) then
      SkipSettles(p, i);
      CheckFrom(p, i + 1)
    else Unlock(p, i)
  }

  /** Entry `i` qualifies and is not yet unlocked: append its key, award
      its XP through `addXP`, and carry on with the scan after it. */
  function Unlock(p: Player, i: int): (q: Player)
    requires 0 <= i < |Table| && Table[i] !in p.achievements && Qualifies(p, Table[i])
    ensures SameCounters(p, q)
    ensures p.achievements <= q.achievements
    ensures q.xp - Bonus(q.achievements) == p.xp - Bonus(p.achievements)
    ensures q.xp >= p.xp && q.level >= p.level
    ensures Caught(p) ==> q.level == Max(p.level, Reached(q.xp)) && Caught(q)
    ensures Distinct(p.achievements) ==> Distinct(q.achievements)
    ensures UnlockedUpTo(p, i) ==> UnlockedUpTo(q, |Table|)
    ensures Earned(p, q)
    decreases Pending(p), 1, |Table| - i, 0
  {
    var unlocked := p.(achievements := p.achievements + [Table[i]]);
    UnlockGrows(p, i);
    var q := AddXP(unlocked, Xp(Table[i]));
    PendingShrinks(unlocked, q);
    UnlockSettles(p, i, q);
    var r := CheckFrom(q, i + 1);
    ReachedMonotone(q.xp, r.xp);
    EarnedChain(unlocked, q, r);
    QualifiesMonotone(p, r, Table[i]);
    r
  }

  /** An entry already unlocked, or whose condition fails, needs nothing. */
  lemma SkipSettles(p: Player, i: int)
    requires 0 <= i < |Table| && (Table[i] in p.achievements || !Qualifies(p, Table[i]))
    ensures UnlockedUpTo(p, i) ==> UnlockedUpTo(p, i + 1)
  {
  }

  /** Unlocking table entry `i` takes it off the pending set, adds its XP
      to the bonus, and keeps the list free of repetitions. */
  lemma UnlockGrows(p: Player, i: int)
    requires 0 <= i < |Table| && Table[i] !in p.achievements
    ensures var unlocked := p.(achievements := p.achievements + [Table[i]]);
      && Pending(unlocked) < Pending(p)
      && Bonus(unlocked.achievements) == Bonus(p.achievements) + Xp(Table[i])
      && (Distinct(p.achievements) ==> Distinct(unlocked.achievements))
  {
    var ks := p.achievements + [Table[i]];
    assert i in Pending(p) && i !in Pending(p.(achievements := ks));
    assert ks[..|ks| - 1] == p.achievements;
  }

  /** A longer achievement list leaves fewer entries pending. */
  lemma PendingShrinks(p: Player, q: Player)
    requires p.achievements <= q.achievements
    ensures Pending(q) <= Pending(p)
  {
    forall j | j in Pending(q) ensures j in Pending(p) {
      assert forall x :: x in p.achievements ==> x in q.achievements;
    }
  }

  /** After entry `i` is unlocked through `addXP`, the entries up to and
      including `i` are settled: either `addXP` changed only the XP, so the
      conditions read the same counters and level, or it ran a full scan. */
  lemma UnlockSettles(p: Player, i: int, q: Player)
    requires 0 <= i < |Table|
    requires SameCounters(p, q) && p.achievements + [Table[i]] <= q.achievements
    requires (q.level == p.level && q.achievements == p.achievements + [Table[i]]) || UnlockedUpTo(q, |Table|)
    ensures UnlockedUpTo(p, i) ==> UnlockedUpTo(q, i + 1)
  {
    if UnlockedUpTo(p, i) && q.level == p.level && q.achievements == p.achievements + [Table[i]] {
      forall j | 0 <= j < i + 1 && j < |Table| && Qualifies(q, Table[j])
        ensures Table[j] in q.achievements
      {
        if j < i {
          assert Qualifies(p, Table[j]);
        }
      }
    }
  }

  /** `checkAchievements`: the scan over the whole table. */
  function CheckAchievements(p: Player): (q: Player)
    ensures SameCounters(p, q)
    ensures p.achievements <= q.achievements
    ensures q.xp - Bonus(q.achievements) == p.xp - Bonus(p.achievements)
    ensures q.xp >= p.xp && q.level >= p.level
    ensures Caught(p) ==> q.level == Max(p.level, Reached(q.xp)) && Caught(q)
    ensures Distinct(p.achievements) ==> Distinct(q.achievements)
    ensures UnlockedUpTo(q, |Table|)
    ensures Earned(p, q)
    ensures forall k :: k !in p.achievements ==> (k in q.achievements <==> Qualifies(q, k))
  {
    var q := CheckFrom(p, 0);
    ExactlyEarned(p, q);
    q
  }

  /** The XP a finished game earns: a tenth of the score rounded down, 50
      for a win, 100 for a perfect game, and 25 while the win streak is at
      least three. The bonuses add at most 175 on top of the score's share,
      and nothing at all for a lost, imperfect game outside a streak. */
  function GameXp(score: int, won: bool, perfect: bool, streak: int): (x: int)
    ensures score / 10 <= x <= score / 10 + 175
    ensures x == score / 10 <==> !won && !perfect && streak < 3
    ensures score >= 0 ==> x >= 0
  {
    score / 10 + (if won then 50 else 0) + (if perfect then 100 else 0) + (if streak >= 3 then 25 else 0)
  }

  /** A player record every step keeps well formed. */
  predicate Valid(p: Player) {
    Caught(p) && Distinct(p.achievements) && 0 <= p.stats.currentStreak <= p.stats.streakRecord
  }

  lemma NewPlayerValid()
    ensures Valid(NewPlayer())
    ensures NewPlayer().level == 1 && NewPlayer().xp == 0 && NewPlayer().achievements == []
  {
    ReachedPrefix(0);
  }

  /** The counter updates at the top of `recordGameResult`: one more
      game, the score added to the total and perhaps a new best, the win
      streak extended or broken, and a perfect game counted. Level, XP and
      achievements are left alone. */
  function Played(p: Player, score: int, won: bool, perfect: bool): (q: Player)
    ensures q.level == p.level && q.xp == p.xp && q.achievements == p.achievements
    ensures q.gamesPlayed == p.gamesPlayed + 1
    ensures q.totalScore == p.totalScore + score
    ensures q.bestScore == Max(p.bestScore, score)
    ensures q.stats.perfectGames == p.stats.perfectGames + (if perfect then 1 else 0)
    ensures q.stats.totalPlayTime == p.stats.totalPlayTime
    ensures won ==>
      q.stats.currentStreak == p.stats.currentStreak + 1 &&
      q.stats.streakRecord == Max(p.stats.streakRecord, q.stats.currentStreak)
    ensures !won ==> q.stats.currentStreak == 0 && q.stats.streakRecord == p.stats.streakRecord
    ensures 0 <= p.stats.currentStreak <= p.stats.streakRecord ==> 0 <= q.stats.currentStreak <= q.stats.streakRecord
  {
    var s := p.stats;
    var streak := if won then s.currentStreak + 1 else 0;
    var record := if won && streak > s.streakRecord then streak else s.streakRecord;
    p.(
      gamesPlayed := p.gamesPlayed + 1,
      totalScore := p.totalScore + score,
      bestScore := if score > p.bestScore then score else p.bestScore,
      stats := s.(
        currentStreak := streak,
        streakRecord := record,
        perfectGames := if perfect then s.perfectGames + 1 else s.perfectGames))
  }

  /** `recordGameResult(score, won, perfect)`: update the counters, award
      the game's XP through `addXP`, then scan the achievements. On top of
      the counter updates of `Played`:
      - the XP grows by the game's XP plus the table XP of every
        achievement unlocked on the way;
      - achievements are only appended, and afterwards every achievement
        whose condition holds is unlocked;
      - a valid record stays valid, and its level becomes the higher of
        the old level and the one the new XP entitles to. */
  function RecordGameResult(p: Player, score: int, won: bool, perfect: bool): (q: Player)
    ensures SameCounters(Played(p, score, won, perfect), q)
    ensures q.xp - Bonus(q.achievements)
         == p.xp - Bonus(p.achievements) + GameXp(score, won, perfect, q.stats.currentStreak)
    ensures p.achievements <= q.achievements
    ensures q.level >= p.level
    ensures Valid(p) ==> Valid(q) && q.level == Max(p.level, Reached(q.xp))
    ensures UnlockedUpTo(q, |Table|)
    ensures Earned(p, q)
  {
    var played := Played(p, score, won, perfect);
    var earned := AddXP(played, GameXp(score, won, perfect, played.stats.currentStreak));
    var q := CheckAchievements(earned);
    ReachedMonotone(earned.xp, q.xp);
    EarnedChain(played, earned, q);
    q
  }

  /** Every key has an entry in the table. */
  lemma TableComplete(k: Key)
    ensures k in Table
  {
    match k
    case FirstGame => assert Table[0] == k;
    case Score100 => assert Table[1] == k;
    case Score500 => assert Table[2] == k;
    case Score1000 => assert Table[3] == k;
    case Games10 => assert Table[4] == k;
    case Games50 => assert Table[5] == k;
    case Games100 => assert Table[6] == k;
    case Level5 => assert Table[7] == k;
    case Level10 => assert Table[8] == k;
    case Streak5 => assert Table[9] == k;
    case PerfectGame => assert Table[10] == k;
  }

  /** When only earned achievements were added and every qualifying one is
      unlocked, a key missing from `p` is in `q` exactly when its condition
      holds in `q`. */
  lemma ExactlyEarned(p: Player, q: Player)
    requires Earned(p, q) && UnlockedUpTo(q, |Table|)
    ensures forall k :: k !in p.achievements ==> (k in q.achievements <==> Qualifies(q, k))
  {
    forall k | k !in p.achievements
      ensures k in q.achievements <==> Qualifies(q, k)
    {
      TableComplete(k);
      var i :| 0 <= i < |Table| && Table[i] == k;
    }
  }

  /** After a game, the achievements that were missing and are now in the
      list are exactly those whose condition holds. */
  lemma RecordExact(p: Player, score: int, won: bool, perfect: bool)
    ensures var q := RecordGameResult(p, score, won, perfect);
      forall k :: k !in p.achievements ==> (k in q.achievements <==> Qualifies(q, k))
  {
    ExactlyEarned(p, RecordGameResult(p, score, won, perfect));
  }

  /** A scan has nothing to do once every qualifying achievement is
      unlocked. */
  lemma {:induction false} ScanSettled(p: Player, i: int)
    requires 0 <= i <= |Table| && UnlockedUpTo(p, |Table|)
    ensures CheckFrom(p, i) == p
    decreases |Table| - i
  {
    if i < |Table| {
      ScanSettled(p, i + 1);
    }
  }

  /** Checking achievements twice in a row is checking them once. */
  lemma CheckTwice(p: Player)
    ensures CheckAchievements(CheckAchievements(p)) == CheckAchievements(p)
  {
    ScanSettled(CheckAchievements(p), 0);
  }

  /** A new player who wins a first game with score 0 earns 50 XP for the
      win, unlocks First Steps for 50 more, and the 100 XP raise the level
      to 2. */
  lemma FirstWin()
    ensures var q := RecordGameResult(NewPlayer(), 0, true, false);
      q.level == 2 && q.xp == 100 && q.achievements == [FirstGame]
  {
    var p := NewPlayer();
    var played := Played(p, 0, true, false);
    assert played.level == 1 && played.xp == 0 && played.achievements == [];
    assert played.gamesPlayed == 1 && played.bestScore == 0;
    assert played.stats.currentStreak == 1 && played.stats.streakRecord == 1 && played.stats.perfectGames == 0;
    assert GameXp(0, true, false, played.stats.currentStreak) == 50;
    FirstWinXp(played);
    var earned := played.(xp := 50);
    assert AddXP(played, 50) == earned;
    var raised := earned.(achievements := [FirstGame], xp := 100, level := 2);
    FirstWinUnlock(earned);
    ScanSettled(raised, 1);
    assert Unlock(earned, 0) == raised;
    assert CheckFrom(earned, 0) == raised;
    assert RecordGameResult(p, 0, true, false) == raised;
  }

  /** The 50 XP of the win stay below the 100 needed for level 2. */
  lemma FirstWinXp(played: Player)
    requires played.level == 1 && played.xp == 0
    ensures AddXP(played, 50) == played.(xp := 50)
  {
    ReachedPrefix(50);
  }

  /** First Steps brings the XP to 100, which reaches level 2; the rescan
      that follows finds nothing more. */
  lemma FirstWinUnlock(earned: Player)
    requires earned.level == 1 && earned.xp == 50 && earned.achievements == []
    requires earned.gamesPlayed == 1 && earned.bestScore == 0
    requires earned.stats.streakRecord == 1 && earned.stats.perfectGames == 0
    ensures var raised := earned.(achievements := [FirstGame], xp := 100, level := 2);
      AddXP(earned.(achievements := [FirstGame]), 50) == raised && UnlockedUpTo(raised, |Table|)
  {
    var raised := earned.(achievements := [FirstGame], xp := 100, level := 2);
    ReachedPrefix(100);
    assert LevelUp(earned.(achievements := [FirstGame], xp := 100)) == raised;
    FirstWinSettled(raised);
    ScanSettled(raised, 0);
  }

  /** At that point only First Steps qualifies. */
  lemma FirstWinSettled(raised: Player)
    requires raised.level == 2 && raised.achievements == [FirstGame]
    requires raised.gamesPlayed == 1 && raised.bestScore == 0
    requires raised.stats.streakRecord == 1 && raised.stats.perfectGames == 0
    ensures UnlockedUpTo(raised, |Table|)
  {
    forall i | 0 <= i < |Table| && Qualifies(raised, Table[i])
      ensures Table[i] in raised.achievements
    {
      assert i == 0;
    }
  }
}
