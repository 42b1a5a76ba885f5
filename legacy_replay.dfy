/** `LegacyReplayHelper.WriteReplayWithHeader`: the bytes of an osu! legacy
    replay (.osr) built from raw frame bytes and the score, user and beatmap rows.
    The field order is fixed; every field goes through the `SerializationWriter`
    conventions of module Binary. A reader of the same layout is given and the
    round trip proved. */
module LegacyReplay {
  import opened Wrappers
  import opened Numbers
  import opened Binary
  import opened Records
  import opened Streams
  import Utf8

  /** The format version written when the replay table has no version for the score. */
  const DEFAULT_REPLAY_VERSION: i32 := 20151228

  /** `scoreVersion ?? default_replay_version`. */
  function VersionOrDefault(scoreVersion: Option<i32>): i32 {
    if scoreVersion.Some? then scoreVersion.value else DEFAULT_REPLAY_VERSION
  }

  /** The text whose digest is the score checksum: max combo, "osu", username,
      beatmap checksum, total score and rank, integers in decimal. */
  function ChecksumText(score: HighScore, user: User, beatmap: Beatmap): string {
    Decimal(score.maxCombo) + "osu" + user.username + beatmap.checksum + Decimal(score.score) + score.rank
  }

  /** The text fields and the frames fit what .NET can hold (under 2^31 bytes).
      `md5` is `ComputeMD5Hash`: the MD5 digest of the UTF-8 bytes of a text,
      rendered as lower-case hex. */
  predicate Representable(frames: seq<byte>, score: HighScore, user: User, beatmap: Beatmap, md5: string -> string)
  {
    && |frames| < TWO_31
    && StringFits(beatmap.checksum)
    && StringFits(user.username)
    && StringFits(md5(ChecksumText(score, user, beatmap)))
  }

  /** The header section: ruleset, version, the three strings and the play
      statistics, concatenated in writing order. */
  function ReplayHeader(rulesetId: u16, scoreVersion: Option<i32>, score: HighScore,
                        user: User, beatmap: Beatmap, md5: string -> string): seq<byte>
    requires StringFits(beatmap.checksum) && StringFits(user.username)
    requires StringFits(md5(ChecksumText(score, user, beatmap)))
  {
    EncodeByte(rulesetId % 0x100)
    + EncodeInt32(VersionOrDefault(scoreVersion))
    + EncodeString(beatmap.checksum)
    + EncodeString(user.username)
    + EncodeString(md5(ChecksumText(score, user, beatmap)))
    + EncodeUInt16(score.count300)
    + EncodeUInt16(score.count100)
    + EncodeUInt16(score.count50)
    + EncodeUInt16(score.countGeki)
    + EncodeUInt16(score.countKatu)
    + EncodeUInt16(score.countMiss)
    + EncodeInt32(score.score)
    + EncodeUInt16(score.maxCombo)
    + EncodeBool(score.perfect)
    + EncodeInt32(score.enabledMods)
  }

  /** What follows the header: an empty life-bar string, the date, the
      length-prefixed frames and the score id. */
  function ReplayTrailer(frames: seq<byte>, score: HighScore): seq<byte>
    requires |frames| < TWO_31
  {
    EncodeString("")
    + EncodeInt64(score.date)
    + EncodeByteArray(frames)
    + EncodeUInt64(score.scoreId)
  }

  /** The whole replay: the header, then the trailer, nothing after them. */
  function ReplayWithHeader(frames: seq<byte>, rulesetId: u16, scoreVersion: Option<i32>, score: HighScore,
                            user: User, beatmap: Beatmap, md5: string -> string): seq<byte>
    requires Representable(frames, score, user, beatmap, md5)
  {
    ReplayHeader(rulesetId, scoreVersion, score, user, beatmap, md5) + ReplayTrailer(frames, score)
  }

  /** Four pieces appended one by one after a prefix are the prefix followed by the four. */
  lemma AppendFour(p: seq<byte>, a: seq<byte>, b: seq<byte>, c: seq<byte>, d: seq<byte>)
    ensures (((p + a) + b) + c) + d == p + (((a + b) + c) + d)
  {
  }

  /** The `SerializationWriter` calls: each appends one value's encoding to
      what was written before. */
  method WriteFields(frameData: seq<byte>, rulesetId: u16, scoreVersion: Option<i32>, score: HighScore,
                     user: User, beatmap: Beatmap, md5: string -> string)
    returns (written: seq<byte>)
    requires Representable(frameData, score, user, beatmap, md5)
    ensures written == ReplayWithHeader(frameData, rulesetId, scoreVersion, score, user, beatmap, md5)
  {
    written := [];

    var scoreChecksum := ChecksumText(score, user, beatmap);

    // header section
    written := written + EncodeByte(rulesetId % 0x100);
    assert written == EncodeByte(rulesetId % 0x100);
    written := written + EncodeInt32(VersionOrDefault(scoreVersion));
    written := written + EncodeString(beatmap.checksum);
    written := written + EncodeString(user.username);
    written := written + EncodeString(md5(scoreChecksum));
    written := written + EncodeUInt16(score.count300);
    written := written + EncodeUInt16(score.count100);
    written := written + EncodeUInt16(score.count50);
    written := written + EncodeUInt16(score.countGeki);
    written := written + EncodeUInt16(score.countKatu);
    written := written + EncodeUInt16(score.countMiss);
    written := written + EncodeInt32(score.score);
    written := written + EncodeUInt16(score.maxCombo);
    written := written + EncodeBool(score.perfect);
    written := written + EncodeInt32(score.enabledMods);
    ghost var header := written;

    written := written + EncodeString("");
    written := written + EncodeInt64(score.date);

    written := written + EncodeByteArray(frameData);
    written := written + EncodeUInt64(score.scoreId);
    AppendFour(header, EncodeString(""), EncodeInt64(score.date), EncodeByteArray(frameData), EncodeUInt64(score.scoreId));
  }

  /** `WriteReplayWithHeader`: a fresh stream holding exactly the replay,
      positioned at the start. */
  method WriteReplayWithHeader(frameData: seq<byte>, rulesetId: u16, scoreVersion: Option<i32>, score: HighScore,
                               user: User, beatmap: Beatmap, md5: string -> string)
    returns (stream: MemoryStream)
    requires Representable(frameData, score, user, beatmap, md5)
    ensures fresh(stream) && stream.Valid() && stream.position == 0
    ensures stream.data == ReplayWithHeader(frameData, rulesetId, scoreVersion, score, user, beatmap, md5)
  {
    stream := new MemoryStream.Empty();
    var written := WriteFields(frameData, rulesetId, scoreVersion, score, user, beatmap, md5);
    OverwriteAtEnd([], written);
    assert [] + written == written;
    stream.Write(written);
    stream.Rewind();
  }

  /** The play statistics of a legacy replay, in the order they are stored. */
  datatype Statistics = Statistics(
    count300: u16,
    count100: u16,
    count50: u16,
    countGeki: u16,
    countKatu: u16,
    countMiss: u16,
    totalScore: i32,
    maxCombo: u16,
    perfect: bool,
    mods: i32)

  /** What a legacy replay reader recovers from the bytes. */
  datatype LegacyReplay = LegacyReplay(
    ruleset: byte,
    version: i32,
    beatmapChecksum: string,
    username: string,
    scoreChecksum: string,
    stats: Statistics,
    lifeBar: string,
    date: i64,
    frames: seq<byte>,
    onlineScoreId: u64)

  /** Reads the six counts, total score, max combo, perfect flag and mods. */
  function ReadStatistics(bs: seq<byte>): Option<(Statistics, seq<byte>)> {
    var count300 :- ReadUInt16(bs);
    var count100 :- ReadUInt16(count300.1);
    var count50 :- ReadUInt16(count100.1);
    var countGeki :- ReadUInt16(count50.1);
    var countKatu :- ReadUInt16(countGeki.1);
    var countMiss :- ReadUInt16(countKatu.1);
    var totalScore :- ReadInt32(countMiss.1);
    var maxCombo :- ReadUInt16(totalScore.1);
    var perfect :- ReadBool(maxCombo.1);
    var mods :- ReadInt32(perfect.1);
    Some((Statistics(count300.0, count100.0, count50.0, countGeki.0, countKatu.0, countMiss.0,
                     totalScore.0, maxCombo.0, perfect.0, mods.0), mods.1))
  }

  /** Reads a legacy replay field by field; fails on malformed or trailing bytes. */
  function ParseReplay(bs: seq<byte>): Option<LegacyReplay> {
    var ruleset :- ReadByte(bs);
    var version :- ReadInt32(ruleset.1);
    var beatmapChecksum :- ReadString(version.1);
    var username :- ReadString(beatmapChecksum.1);
    var scoreChecksum :- ReadString(username.1);
    var stats :- ReadStatistics(scoreChecksum.1);
    var lifeBar :- ReadString(stats.1);
    var date :- ReadInt64(lifeBar.1);
    var frames :- ReadByteArray(date.1);
    var onlineScoreId :- ReadUInt64(frames.1);
    if onlineScoreId.1 != [] then None
    else Some(LegacyReplay(ruleset.0, version.0, beatmapChecksum.0, username.0, scoreChecksum.0,
                           stats.0, lifeBar.0, date.0, frames.0, onlineScoreId.0))
  }

  /** The statistics the writer takes from a high-score row. */
  function StatisticsOf(score: HighScore): Statistics {
    Statistics(score.count300, score.count100, score.count50, score.countGeki, score.countKatu,
               score.countMiss, score.score, score.maxCombo, score.perfect, score.enabledMods)
  }

  /** The statistics written in order are read back, and what follows is left alone. */
  lemma ReadStatisticsRoundTrip(score: HighScore, rest: seq<byte>)
    ensures ReadStatistics(
        EncodeUInt16(score.count300) + (EncodeUInt16(score.count100) + (EncodeUInt16(score.count50)
      + (EncodeUInt16(score.countGeki) + (EncodeUInt16(score.countKatu) + (EncodeUInt16(score.countMiss)
      + (EncodeInt32(score.score) + (EncodeUInt16(score.maxCombo) + (EncodeBool(score.perfect)
      + (EncodeInt32(score.enabledMods) + rest))))))))))
      == Some((StatisticsOf(score), rest))
  {
    var t14 := EncodeInt32(score.enabledMods) + rest;
    ReadInt32RoundTrip(score.enabledMods, rest);
    var t13 := EncodeBool(score.perfect) + t14;
    ReadBoolRoundTrip(score.perfect, t14);
    var t12 := EncodeUInt16(score.maxCombo) + t13;
    ReadUInt16RoundTrip(score.maxCombo, t13);
    var t11 := EncodeInt32(score.score) + t12;
    ReadInt32RoundTrip(score.score, t12);
    var t10 := EncodeUInt16(score.countMiss) + t11;
    ReadUInt16RoundTrip(score.countMiss, t11);
    var t9 := EncodeUInt16(score.countKatu) + t10;
    ReadUInt16RoundTrip(score.countKatu, t10);
    var t8 := EncodeUInt16(score.countGeki) + t9;
    ReadUInt16RoundTrip(score.countGeki, t9);
    var t7 := EncodeUInt16(score.count50) + t8;
    ReadUInt16RoundTrip(score.count50, t8);
    var t6 := EncodeUInt16(score.count100) + t7;
    ReadUInt16RoundTrip(score.count100, t7);
    ReadUInt16RoundTrip(score.count300, t6);
  }

  /** Fifteen pieces appended one after another, followed by four more, are
      the first piece followed by the other eighteen. */
  lemma Reassociate(e0: seq<byte>, e1: seq<byte>, e2: seq<byte>, e3: seq<byte>, e4: seq<byte>,
                    e5: seq<byte>, e6: seq<byte>, e7: seq<byte>, e8: seq<byte>, e9: seq<byte>,
                    e10: seq<byte>, e11: seq<byte>, e12: seq<byte>, e13: seq<byte>, e14: seq<byte>,
                    e15: seq<byte>, e16: seq<byte>, e17: seq<byte>, e18: seq<byte>)
    ensures (e0 + e1 + e2 + e3 + e4 + e5 + e6 + e7 + e8 + e9 + e10 + e11 + e12 + e13 + e14) + (e15 + e16 + e17 + e18)
      == e0 + (e1 + (e2 + (e3 + (e4 + (e5 + (e6 + (e7 + (e8 + (e9 + (e10 + (e11 + (e12 + (e13 + (e14
           + (e15 + (e16 + (e17 + e18)))))))))))))))))
  {
  }

  /** Round trip: reading the built replay recovers every field written, in
      order — ruleset byte, version (or the default), beatmap checksum,
      username, score checksum, the six counts, score, combo, perfect flag,
      mods, an empty life bar, date, the frames verbatim and the score id. */
  lemma ParseReplayRoundTrip(frames: seq<byte>, rulesetId: u16, scoreVersion: Option<i32>, score: HighScore,
                             user: User, beatmap: Beatmap, md5: string -> string)
    requires Representable(frames, score, user, beatmap, md5)
    ensures ParseReplay(ReplayWithHeader(frames, rulesetId, scoreVersion, score, user, beatmap, md5))
      == Some(LegacyReplay(
        rulesetId % 0x100,
        VersionOrDefault(scoreVersion),
        beatmap.checksum,
        user.username,
        md5(ChecksumText(score, user, beatmap)),
        StatisticsOf(score),
        "",
        score.date,
        frames,
        score.scoreId))
  {
    var e0, e1 := EncodeByte(rulesetId % 0x100), EncodeInt32(VersionOrDefault(scoreVersion));
    var e2, e3 := EncodeString(beatmap.checksum), EncodeString(user.username);
    var e4 := EncodeString(md5(ChecksumText(score, user, beatmap)));
    var e5, e6, e7 := EncodeUInt16(score.count300), EncodeUInt16(score.count100), EncodeUInt16(score.count50);
    var e8, e9, e10 := EncodeUInt16(score.countGeki), EncodeUInt16(score.countKatu), EncodeUInt16(score.countMiss);
    var e11, e12 := EncodeInt32(score.score), EncodeUInt16(score.maxCombo);
    var e13, e14 := EncodeBool(score.perfect), EncodeInt32(score.enabledMods);
    var e15, e16 := EncodeString(""), EncodeInt64(score.date);
    var e17, e18 := EncodeByteArray(frames), EncodeUInt64(score.scoreId);
    Reassociate(e0, e1, e2, e3, e4, e5, e6, e7, e8, e9, e10, e11, e12, e13, e14, e15, e16, e17, e18);
    var t18 := e18;
    ReadUInt64RoundTrip(score.scoreId, []);
    assert e18 + [] == t18;
    var t17 := e17 + t18;
    ReadByteArrayRoundTrip(frames, t18);
    var t16 := e16 + t17;
    ReadInt64RoundTrip(score.date, t17);
    var t15 := e15 + t16;
    ReadStringRoundTrip("", t16);
    ReadStatisticsRoundTrip(score, t15);
    var t5 := e5 + (e6 + (e7 + (e8 + (e9 + (e10 + (e11 + (e12 + (e13 + (e14 + t15)))))))));
    var t4 := e4 + t5;
    ReadStringRoundTrip(md5(ChecksumText(score, user, beatmap)), t5);
    var t3 := e3 + t4;
    ReadStringRoundTrip(user.username, t4);
    var t2 := e2 + t3;
    ReadStringRoundTrip(beatmap.checksum, t3);
    var t1 := e1 + t2;
    ReadInt32RoundTrip(VersionOrDefault(scoreVersion), t2);
    ReadByteRoundTrip(rulesetId % 0x100, t1);
  }

  /** The output starts with the low byte of the ruleset id, then the version
      (or the default) as a 4-byte integer. */
  lemma ReplayStart(frames: seq<byte>, rulesetId: u16, scoreVersion: Option<i32>, score: HighScore,
                    user: User, beatmap: Beatmap, md5: string -> string)
    requires Representable(frames, score, user, beatmap, md5)
    ensures var r := ReplayWithHeader(frames, rulesetId, scoreVersion, score, user, beatmap, md5);
      |r| >= 5 && r[..5] == [rulesetId % 0x100] + EncodeInt32(VersionOrDefault(scoreVersion))
  {
    var e0, e1 := EncodeByte(rulesetId % 0x100), EncodeInt32(VersionOrDefault(scoreVersion));
    var e2, e3 := EncodeString(beatmap.checksum), EncodeString(user.username);
    var e4 := EncodeString(md5(ChecksumText(score, user, beatmap)));
    var e5, e6, e7 := EncodeUInt16(score.count300), EncodeUInt16(score.count100), EncodeUInt16(score.count50);
    var e8, e9, e10 := EncodeUInt16(score.countGeki), EncodeUInt16(score.countKatu), EncodeUInt16(score.countMiss);
    var e11, e12 := EncodeInt32(score.score), EncodeUInt16(score.maxCombo);
    var e13, e14 := EncodeBool(score.perfect), EncodeInt32(score.enabledMods);
    var e15, e16 := EncodeString(""), EncodeInt64(score.date);
    var e17, e18 := EncodeByteArray(frames), EncodeUInt64(score.scoreId);
    Reassociate(e0, e1, e2, e3, e4, e5, e6, e7, e8, e9, e10, e11, e12, e13, e14, e15, e16, e17, e18);
    var rest := e2 + (e3 + (e4 + (e5 + (e6 + (e7 + (e8 + (e9 + (e10 + (e11 + (e12 + (e13 + (e14
      + (e15 + (e16 + (e17 + e18)))))))))))))));
    HeadSlices(e0, e1, rest);
  }

  /** At the back, in this order and with nothing after them: the empty life
      bar string (marker and zero length), the 8-byte date, the frames
      verbatim after their int32 length, and the 8-byte score id. */
  lemma ReplayEnd(frames: seq<byte>, rulesetId: u16, scoreVersion: Option<i32>, score: HighScore,
                  user: User, beatmap: Beatmap, md5: string -> string)
    requires Representable(frames, score, user, beatmap, md5)
    ensures var r := ReplayWithHeader(frames, rulesetId, scoreVersion, score, user, beatmap, md5);
      && |r| >= 22 + |frames|
      && r[|r| - 22 - |frames|..]
         == [STRING_MARKER, 0] + EncodeInt64(score.date) + (EncodeInt32(|frames|) + frames) + EncodeUInt64(score.scoreId)
  {
    var h := ReplayHeader(rulesetId, scoreVersion, score, user, beatmap, md5);
    var t := ReplayTrailer(frames, score);
    assert Utf8.Encode("") == [];
    assert EncodeString("") == [STRING_MARKER, 0];
    assert (h + t)[|h|..] == t;
  }

  /** The first two pieces, seen from the front. */
  lemma HeadSlices(a: seq<byte>, b: seq<byte>, rest: seq<byte>)
    requires |a| == 1 && |b| == 4
    ensures (a + (b + rest))[..5] == a + b
  {
  }
}
