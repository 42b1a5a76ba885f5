/** What both controllers share: the HTTP responses, the download file name,
    the distributed-cache key and the header builder
    `createLegacyReplayWithHeadersAsync`. */
module Requests {
  import opened Wrappers
  import opened Numbers
  import opened Errors
  import opened Records
  import opened Streams
  import opened LegacyReplay
  import Rulesets

  const CONTENT_TYPE: string := "application/x-osu-replay"

  /** The result of a request. `File` carries the body, its content type,
      the download name and the `X-Cache-Hit` header ("1" served from the
      cache, "0" from storage). `Raised` is an exception escaping the
      action, answered by the framework with a server error. */
  datatype Response =
    | NotFound
    | NoContent
    | File(body: seq<byte>, contentType: string, fileName: string, cacheHit: string)
    | Raised(error: Error)

  /** `(uint)beatmap_id`: a negative 32-bit id wraps around. */
  function AsUnsigned(x: i32): (r: u32)
    ensures x >= 0 ==> r == x
    ensures x < 0 ==> r == x + TWO_32
  {
    x % TWO_32
  }

  /** `createFileName`: "replay-" (legacy) or "solo-replay-", the ruleset's
      name, the beatmap id and the score id, then ".osr". The ruleset name
      is resolved first, so an invalid id raises. */
  function ReplayFileName(scoreId: int, beatmapId: int, rulesetId: int, legacy: bool): Result<string, Error> {
    var ruleset :- Rulesets.RulesetName(rulesetId);
    var replayType := if legacy then "replay" else "solo-replay";
    Success(replayType + "-" + ruleset + "_" + Decimal(beatmapId) + "_" + Decimal(scoreId) + ".osr")
  }

  /** The file name exists exactly for a valid ruleset; it starts with the
      replay kind and the ruleset's name and ends with ".osr". */
  lemma ReplayFileNameShape(scoreId: int, beatmapId: int, rulesetId: int, legacy: bool)
    ensures ReplayFileName(scoreId, beatmapId, rulesetId, legacy).Success? <==> Rulesets.IsValidRulesetId(rulesetId)
    ensures ReplayFileName(scoreId, beatmapId, rulesetId, legacy).Failure? ==>
              ReplayFileName(scoreId, beatmapId, rulesetId, legacy).error == InvalidRuleset(rulesetId)
    ensures var r := ReplayFileName(scoreId, beatmapId, rulesetId, legacy);
            r.Success? ==>
              var prefix := (if legacy then "replay-" else "solo-replay-") + Rulesets.NAMES[rulesetId] + "_";
              |r.value| > |prefix| + 4 && r.value[..|prefix|] == prefix && r.value[|r.value| - 4..] == ".osr"
  {
    var r := ReplayFileName(scoreId, beatmapId, rulesetId, legacy);
    if r.Success? {
      var replayType := if legacy then "replay" else "solo-replay";
      var prefix := (if legacy then "replay-" else "solo-replay-") + Rulesets.NAMES[rulesetId] + "_";
      var middle := Decimal(beatmapId) + "_" + Decimal(scoreId);
      assert r.value == prefix + middle + ".osr";
    }
  }

  /** `getCacheKey`: "legacy-replay-<ruleset>_<score>" or "solo-replay-<score>". */
  function CacheKey(scoreId: int, rulesetId: int, legacy: bool): string {
    if legacy then "legacy-replay-" + Decimal(rulesetId) + "_" + Decimal(scoreId)
    else "solo-replay-" + Decimal(scoreId)
  }

  /** Two requests share a cache entry exactly when they name the same
      replay: the same score, both legacy or both solo, and for legacy
      scores the same ruleset. */
  lemma CacheKeyInjective(s1: int, r1: u16, l1: bool, s2: int, r2: u16, l2: bool)
    ensures CacheKey(s1, r1, l1) == CacheKey(s2, r2, l2) <==> s1 == s2 && l1 == l2 && (l1 ==> r1 == r2)
  {
    CacheKeyKind(s1, r1, l1);
    CacheKeyKind(s2, r2, l2);
    if CacheKey(s1, r1, l1) == CacheKey(s2, r2, l2) && l1 == l2 {
      if l1 {
        LegacyKeyInjective(s1, r1, s2, r2);
      } else {
        SoloKeyInjective(s1, s2);
      }
    }
  }

  /** The first letter of a key tells legacy keys from solo ones. */
  lemma CacheKeyKind(scoreId: int, rulesetId: int, legacy: bool)
    ensures |CacheKey(scoreId, rulesetId, legacy)| > 0
    ensures CacheKey(scoreId, rulesetId, legacy)[0] == if legacy then 'l' else 's'
  {
  }

  lemma LegacyKeyInjective(s1: int, r1: u16, s2: int, r2: u16)
    requires CacheKey(s1, r1, true) == CacheKey(s2, r2, true)
    ensures s1 == s2 && r1 == r2
  {
    LegacyKeyParts(s1, r1);
    LegacyKeyParts(s2, r2);
    PrefixCancel("legacy-replay-", Decimal(r1) + "_" + Decimal(s1), Decimal(r2) + "_" + Decimal(s2));
    SplitAtUnderscore(Decimal(r1), Decimal(s1), Decimal(r2), Decimal(s2));
    DecimalInjective(r1, r2);
    DecimalInjective(s1, s2);
  }

  lemma LegacyKeyParts(s: int, r: int)
    ensures CacheKey(s, r, true) == "legacy-replay-" + (Decimal(r) + "_" + Decimal(s))
  {
  }

  /** Texts with the same prefix are equal when the whole texts are. */
  lemma PrefixCancel(p: string, x: string, y: string)
    requires p + x == p + y
    ensures x == y
  {
    assert x == (p + x)[|p|..];
    assert y == (p + y)[|p|..];
  }

  lemma SoloKeyInjective(s1: int, s2: int)
    requires CacheKey(s1, 0, false) == CacheKey(s2, 0, false)
    ensures s1 == s2
  {
    var p := "solo-replay-";
    assert CacheKey(s1, 0, false)[|p|..] == Decimal(s1);
    assert CacheKey(s2, 0, false)[|p|..] == Decimal(s2);
    DecimalInjective(s1, s2);
  }

  /** A text that holds no '_' ends where the first '_' is. */
  lemma SplitAtUnderscore(a: string, b: string, c: string, d: string)
    requires forall i | 0 <= i < |a| :: a[i] != '_'
    requires forall i | 0 <= i < |c| :: c[i] != '_'
    requires a + "_" + b == c + "_" + d
    ensures a == c && b == d
  {
    var x := a + "_" + b;
    assert forall i | 0 <= i < |a| :: x[i] == a[i];
    assert forall i | 0 <= i < |c| :: x[i] == c[i];
    assert x[|a|] == '_' && x[|c|] == '_';
    assert |a| == |c|;
    assert a == x[..|a|] && c == x[..|c|];
    assert b == x[|a| + 1..] && d == x[|c| + 1..];
  }

  /** `createLegacyReplayWithHeadersAsync` as a value: the score-version
      query (which resolves the ruleset's table first), then the header
      builder. A missing user or beatmap row is not caught (the assertions
      are compiled out) and fails when the builder reads its fields, the
      user's first; a field too long for its length prefix fails too. */
  function LegacyReplayBytes(db: Database, frames: seq<byte>, rulesetId: u16, score: HighScore, md5: string -> string): Result<seq<byte>, Error> {
    var scoreVersion :- GetLegacyScoreVersion(db, score.scoreId, rulesetId);
    var user := GetUser(db, score.userId);
    var beatmap := GetBeatmap(db, score.beatmapId);
    if user.None? then Failure(MissingRow("phpbb_users"))
    else if beatmap.None? then Failure(MissingRow("osu_beatmaps"))
    else if !Representable(frames, score, user.value, beatmap.value, md5) then Failure(TooLong("replay"))
    else Success(ReplayWithHeader(frames, rulesetId, scoreVersion, score, user.value, beatmap.value, md5))
  }

  /** When the header builder succeeds, its bytes parse back into the
      frames, the score's statistics and the rows it read. */
  lemma LegacyReplayBytesParse(db: Database, frames: seq<byte>, rulesetId: u16, score: HighScore, md5: string -> string)
    requires LegacyReplayBytes(db, frames, rulesetId, score, md5).Success?
    ensures var bytes := LegacyReplayBytes(db, frames, rulesetId, score, md5).value;
            var user := GetUser(db, score.userId).value;
            var beatmap := GetBeatmap(db, score.beatmapId).value;
            var version := GetLegacyScoreVersion(db, score.scoreId, rulesetId).value;
            ParseReplay(bytes) == Some(LegacyReplay(rulesetId % 0x100, VersionOrDefault(version), beatmap.checksum, user.username,
                                                    md5(ChecksumText(score, user, beatmap)), StatisticsOf(score), "", score.date, frames, score.scoreId))
  {
    var user := GetUser(db, score.userId).value;
    var beatmap := GetBeatmap(db, score.beatmapId).value;
    var version := GetLegacyScoreVersion(db, score.scoreId, rulesetId).value;
    ParseReplayRoundTrip(frames, rulesetId, version, score, user, beatmap, md5);
  }

  /** The served replay in terms of the database: its version is the one in
      the ruleset's replay table, or 20151228 when the table has no row for
      the score; its statistics are the high-score row's counts, score,
      combo, perfect flag and mods; its checksum and name come from the
      beatmap and user rows. */
  lemma LegacyReplayFromRows(db: Database, frames: seq<byte>, rulesetId: u16, score: HighScore, md5: string -> string)
    requires LegacyReplayBytes(db, frames, rulesetId, score, md5).Success?
    ensures ParseReplay(LegacyReplayBytes(db, frames, rulesetId, score, md5).value).Some?
    ensures var p := ParseReplay(LegacyReplayBytes(db, frames, rulesetId, score, md5).value).value;
            var table := Rulesets.ReplayTable(rulesetId);
            && table.Success?
            && (table.value in db.replayVersions && score.scoreId in db.replayVersions[table.value] ==>
                  p.version == db.replayVersions[table.value][score.scoreId])
            && (!(table.value in db.replayVersions && score.scoreId in db.replayVersions[table.value]) ==>
                  p.version == DEFAULT_REPLAY_VERSION)
            && p.stats.count300 == score.count300 && p.stats.count100 == score.count100 && p.stats.count50 == score.count50
            && p.stats.countGeki == score.countGeki && p.stats.countKatu == score.countKatu && p.stats.countMiss == score.countMiss
            && p.stats.totalScore == score.score && p.stats.maxCombo == score.maxCombo
            && p.stats.perfect == score.perfect && p.stats.mods == score.enabledMods
            && p.beatmapChecksum == GetBeatmap(db, score.beatmapId).value.checksum
            && p.username == GetUser(db, score.userId).value.username
            && p.frames == frames && p.onlineScoreId == score.scoreId && p.ruleset == rulesetId % 0x100
  {
    LegacyReplayBytesParse(db, frames, rulesetId, score, md5);
  }

  /** The header builder as the controllers run it: the queries, then
      `WriteReplayWithHeader` into a fresh stream at position 0. */
  method CreateLegacyReplayWithHeaders(db: Database, frames: seq<byte>, rulesetId: u16, score: HighScore, md5: string -> string)
    returns (r: Result<MemoryStream, Error>)
    ensures r.Failure? <==> LegacyReplayBytes(db, frames, rulesetId, score, md5).Failure?
    ensures r.Failure? ==> r.error == LegacyReplayBytes(db, frames, rulesetId, score, md5).error
    ensures r.Success? ==> fresh(r.value) && r.value.Valid() && r.value.position == 0
                           && r.value.data == LegacyReplayBytes(db, frames, rulesetId, score, md5).value
  {
    var user := GetUser(db, score.userId);
    var beatmap := GetBeatmap(db, score.beatmapId);
    var scoreVersion :- GetLegacyScoreVersion(db, score.scoreId, rulesetId);
    if user.None? {
      return Failure(MissingRow("phpbb_users"));
    }
    if beatmap.None? {
      return Failure(MissingRow("osu_beatmaps"));
    }
    if !Representable(frames, score, user.value, beatmap.value, md5) {
      return Failure(TooLong("replay"));
    }
    var stream := WriteReplayWithHeader(frames, rulesetId, scoreVersion, score, user.value, beatmap.value, md5);
    return Success(stream);
  }
}
