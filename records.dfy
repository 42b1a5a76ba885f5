/** The database rows the service reads, and the lookups it makes, with the
    relational store reduced to maps keyed the way the queries key them. */
module Records {
  import opened Wrappers
  import opened Numbers
  import opened Errors
  import Rulesets

  /** `DateTime.MaxValue.Ticks + 1`: a date is a count of 100-nanosecond ticks since 0001-01-01. */
  const TICKS_LIMIT: int := 3_155_378_976_000_000_000

  type Ticks = t: int | 0 <= t < TICKS_LIMIT

  /** A row of `scores` (a solo score). */
  datatype Score = Score(id: u64, userId: u32, beatmapId: u32, rulesetId: u16, hasReplay: bool)

  /** A row of a legacy `osu_scores*_high` table; `date` is the UTC play time in ticks. */
  datatype HighScore = HighScore(
    scoreId: u64,
    beatmapId: i32,
    userId: i32,
    score: i32,
    maxCombo: u16,
    rank: string,
    count50: u16,
    count100: u16,
    count300: u16,
    countMiss: u16,
    countGeki: u16,
    countKatu: u16,
    perfect: bool,
    enabledMods: i32,
    date: Ticks,
    replay: bool)

  /** A row of `phpbb_users`. */
  datatype User = User(username: string)

  /** A row of `osu_beatmaps`. */
  datatype Beatmap = Beatmap(checksum: string)

  /** The rows visible to the service. Legacy scores and replay versions are
      keyed by table name first, as the queries choose the table by ruleset. */
  datatype Database = Database(
    scores: map<int, Score>,
    highScores: map<string, map<int, HighScore>>,
    users: map<int, User>,
    beatmaps: map<int, Beatmap>,
    replayVersions: map<string, map<int, i32>>)

  /** `GetScoreAsync`: the `scores` row with this id, if any. */
  function GetScore(db: Database, scoreId: int): Option<Score> {
    if scoreId in db.scores then Some(db.scores[scoreId]) else None
  }

  /** `GetLegacyScoreAsync`: the row of the ruleset's high-score table; the
      table name is resolved first, so an invalid ruleset id is an error. */
  function GetLegacyScore(db: Database, legacyScoreId: int, rulesetId: int): (r: Result<Option<HighScore>, Error>)
    ensures r.Failure? <==> !Rulesets.IsValidRulesetId(rulesetId)
  {
    var table :- Rulesets.HighScoreTable(rulesetId);
    Success(if table in db.highScores && legacyScoreId in db.highScores[table]
      then Some(db.highScores[table][legacyScoreId]) else None)
  }

  /** `GetUserAsync`. */
  function GetUser(db: Database, userId: int): Option<User> {
    if userId in db.users then Some(db.users[userId]) else None
  }

  /** `GetBeatmapAsync`. */
  function GetBeatmap(db: Database, beatmapId: int): Option<Beatmap> {
    if beatmapId in db.beatmaps then Some(db.beatmaps[beatmapId]) else None
  }

  /** `GetLegacyScoreVersionAsync`: the `version` column of the ruleset's replay table, if the row exists. */
  function GetLegacyScoreVersion(db: Database, legacyScoreId: int, rulesetId: int): (r: Result<Option<i32>, Error>)
    ensures r.Failure? <==> !Rulesets.IsValidRulesetId(rulesetId)
  {
    var table :- Rulesets.ReplayTable(rulesetId);
    Success(if table in db.replayVersions && legacyScoreId in db.replayVersions[table]
      then Some(db.replayVersions[table][legacyScoreId]) else None)
  }
}
