/** The ordered table of the ten level configurations (`LEVELS`). */
module LevelTable {

  datatype LevelConfig = LevelConfig(level: int, speed: int, obstacleCount: nat, foodToWin: nat)

  const LevelCount: int := 10

  /** Entry `k` configures level `k + 1`; `speed` is the tick interval in milliseconds. */
  const Levels: seq<LevelConfig> := [
    LevelConfig(1, 150, 3, 5),
    LevelConfig(2, 140, 5, 7),
    LevelConfig(3, 130, 8, 8),
    LevelConfig(4, 120, 12, 10),
    LevelConfig(5, 110, 16, 12),
    LevelConfig(6, 100, 20, 14),
    LevelConfig(7, 90, 25, 16),
    LevelConfig(8, 80, 30, 18),
    LevelConfig(9, 70, 36, 20),
    LevelConfig(10, 60, 45, 25)
  ]

  /** `LEVELS[level - 1]`: the table is indexed from level 1 and holds one entry per level. */
  function ConfigFor(level: int): (c: LevelConfig)
    requires 1 <= level <= LevelCount
    ensures |Levels| == LevelCount && c.level == level
  {
    Levels[level - 1]
  }

  /** Each level is faster, has more obstacles and asks for more food than the one before. */
  lemma AdjacentLevelsHarder(k: int)
    requires 0 <= k < |Levels| - 1
    ensures Levels[k].speed > Levels[k + 1].speed
    ensures Levels[k].obstacleCount < Levels[k + 1].obstacleCount
    ensures Levels[k].foodToWin < Levels[k + 1].foodToWin
  {
  }

  /** Across the whole table, `speed` strictly decreases while `obstacleCount` and `foodToWin` strictly increase. */
  lemma {:induction false} LevelsStrictlyHarder(i: int, j: int)
    requires 0 <= i < j < |Levels|
    ensures Levels[i].speed > Levels[j].speed
    ensures Levels[i].obstacleCount < Levels[j].obstacleCount
    ensures Levels[i].foodToWin < Levels[j].foodToWin
    decreases j - i
  {
    AdjacentLevelsHarder(j - 1);
    if i < j - 1 {
      LevelsStrictlyHarder(i, j - 1);
    }
  }
}
