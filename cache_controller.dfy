/** `ReplayCacheController` of the ReplayCache service: the `replays` routes
    over the durable storage and the distributed cache. Each action is a
    method over both tiers; the database, the clock (`now`, in ticks) and the
    MD5 digest function are parameters. Downloads are specified by the
    functions `SoloDownload` and `LegacyDownload` over the tiers' state. */
module CacheController {
  import opened Wrappers
  import opened Numbers
  import opened Errors
  import opened Records
  import opened Streams
  import opened Paths
  import opened ReplayPaths
  import opened LocalStorage
  import opened DistributedCache
  import opened Requests
  import Rulesets

  /** The response to `GET replays/{scoreId}` in the given state. */
  function SoloDownload(db: Database, files: map<string, seq<byte>>, directories: set<string>, baseDirectory: string,
                        legacyTemplate: string, entries: map<string, Entry>, scoreId: int, now: int): Response
  {
    match GetScore(db, scoreId)
    case None => NotFound
    case Some(score) =>
      if !score.hasReplay then NotFound
      else match ReplayFileName(scoreId, score.beatmapId, score.rulesetId, false)
        case Failure(e) => Raised(e)
        case Success(fileName) =>
          match Live(entries, CacheKey(scoreId, score.rulesetId, false), now)
          case Some(cached) => File(cached, CONTENT_TYPE, fileName, "1")
          case None =>
            match StoredReplay(files, directories, baseDirectory, legacyTemplate, scoreId, score.rulesetId, false)
            case Failure(e) => Raised(e)
            case Success(bytes) => File(bytes, CONTENT_TYPE, fileName, "0")
  }

  /** The response to `GET replays/{rulesetId}/{legacyScoreId}` in the given
      state: a cache hit is served as cached; a miss wraps the stored frames
      in the legacy header. */
  function LegacyDownload(db: Database, files: map<string, seq<byte>>, directories: set<string>, baseDirectory: string,
                          legacyTemplate: string, entries: map<string, Entry>, rulesetId: u16, legacyScoreId: int,
                          now: int, md5: string -> string): Response
  {
    match GetLegacyScore(db, legacyScoreId, rulesetId)
    case Failure(e) => Raised(e)
    case Success(None) => NotFound
    case Success(Some(score)) =>
      if !score.replay then NotFound
      else match ReplayFileName(legacyScoreId, AsUnsigned(score.beatmapId), rulesetId, true)
        case Failure(e) => Raised(e)
        case Success(fileName) =>
          match Live(entries, CacheKey(legacyScoreId, rulesetId, true), now)
          case Some(cached) => File(cached, CONTENT_TYPE, fileName, "1")
          case None =>
            match StoredReplay(files, directories, baseDirectory, legacyTemplate, legacyScoreId, rulesetId, true)
            case Failure(e) => Raised(e)
            case Success(frames) =>
              match LegacyReplayBytes(db, frames, rulesetId, score, md5)
              case Failure(e) => Raised(e)
              case Success(bytes) => File(bytes, CONTENT_TYPE, fileName, "0")
  }

  class ReplayCacheController {
    const storage: LocalReplayStorage
    const cache: Cache

    constructor(replayStorage: LocalReplayStorage, distributedCache: Cache)
      ensures storage == replayStorage && cache == distributedCache
    {
      storage := replayStorage;
      cache := distributedCache;
    }

    /** `PutReplayAsync`. The upload is buffered by copying its stream, and
        that same, now exhausted, stream is what storage receives: the file
        gets no new bytes, while the cache gets the whole upload. */
    method PutReplay(db: Database, scoreId: i64, upload: seq<byte>, now: int) returns (response: Response)
      modifies storage, cache
      ensures storage.directories == old(storage.directories)
      ensures GetScore(db, scoreId).None? ==>
        response == NotFound && storage.files == old(storage.files) && cache.entries == old(cache.entries)
      ensures GetScore(db, scoreId).Some? && storage.baseDirectory !in storage.directories ==>
        (response == Raised(DirectoryNotFound(storage.baseDirectory))
         && storage.files == old(storage.files) && cache.entries == old(cache.entries))
      ensures GetScore(db, scoreId).Some? && storage.baseDirectory in storage.directories ==>
        (var score := GetScore(db, scoreId).value;
         response == NoContent
         && storage.files == Written(old(storage.files), Combine(storage.baseDirectory, ScoreFileName(scoreId)), [])
         && cache.entries == old(cache.entries)[CacheKey(scoreId, score.rulesetId, false) := Entry(upload, now + ONE_DAY)])
    {
      var score := GetScore(db, scoreId);
      if score.None? {
        return NotFound;
      }
      var replayStream := new MemoryStream.FromBytes(upload);
      var memoryStream := new MemoryStream.Empty();
      replayStream.CopyTo(memoryStream);
      var replayBytes := memoryStream.ToArray();
      OverwriteAtEnd([], upload);
      assert [] + upload == upload;
      var stored := storage.StoreReplay(scoreId, score.value.rulesetId, false, replayStream);
      if stored.Failure? {
        return Raised(stored.error);
      }
      assert upload[|upload|..] == [];
      cache.Set(CacheKey(scoreId, score.value.rulesetId, false), replayBytes, now);
      return NoContent;
    }

    /** `PutReplayAsync` with the upload stream rewound after it is buffered,
        as the ReplayStore upload does: storage receives the whole upload. */
    method PutReplayCorrected(db: Database, scoreId: i64, upload: seq<byte>, now: int) returns (response: Response)
      modifies storage, cache
      ensures storage.directories == old(storage.directories)
      ensures GetScore(db, scoreId).None? ==>
        response == NotFound && storage.files == old(storage.files) && cache.entries == old(cache.entries)
      ensures GetScore(db, scoreId).Some? && storage.baseDirectory !in storage.directories ==>
        (response == Raised(DirectoryNotFound(storage.baseDirectory))
         && storage.files == old(storage.files) && cache.entries == old(cache.entries))
      ensures GetScore(db, scoreId).Some? && storage.baseDirectory in storage.directories ==>
        (var score := GetScore(db, scoreId).value;
         response == NoContent
         && storage.files == Written(old(storage.files), Combine(storage.baseDirectory, ScoreFileName(scoreId)), upload)
         && cache.entries == old(cache.entries)[CacheKey(scoreId, score.rulesetId, false) := Entry(upload, now + ONE_DAY)])
    {
      var score := GetScore(db, scoreId);
      if score.None? {
        return NotFound;
      }
      var replayStream := new MemoryStream.FromBytes(upload);
      var memoryStream := new MemoryStream.Empty();
      replayStream.CopyTo(memoryStream);
      var replayBytes := memoryStream.ToArray();
      OverwriteAtEnd([], upload);
      assert [] + upload == upload;
      replayStream.Rewind();
      var stored := storage.StoreReplay(scoreId, score.value.rulesetId, false, replayStream);
      if stored.Failure? {
        return Raised(stored.error);
      }
      assert upload[0..] == upload;
      cache.Set(CacheKey(scoreId, score.value.rulesetId, false), replayBytes, now);
      return NoContent;
    }

    /** `PutLegacyReplayAsync`: as `PutReplay`, but the score comes from the
        ruleset's high-score table and the cache gets the upload wrapped in
        the legacy header. The storage write happens before the header is
        built, so a failing header leaves the write done and the cache as it was. */
    method PutLegacyReplay(db: Database, rulesetId: u16, legacyScoreId: i64, upload: seq<byte>, now: int, md5: string -> string)
      returns (response: Response)
      modifies storage, cache
      ensures storage.directories == old(storage.directories)
      ensures GetLegacyScore(db, legacyScoreId, rulesetId).Failure? ==>
        (response == Raised(InvalidRuleset(rulesetId))
         && storage.files == old(storage.files) && cache.entries == old(cache.entries))
      ensures GetLegacyScore(db, legacyScoreId, rulesetId) == Success(None) ==>
        response == NotFound && storage.files == old(storage.files) && cache.entries == old(cache.entries)
      ensures (GetLegacyScore(db, legacyScoreId, rulesetId).Success? && GetLegacyScore(db, legacyScoreId, rulesetId).value.Some?
               && storage.Directory(rulesetId, true).value !in storage.directories) ==>
        (response == Raised(DirectoryNotFound(storage.Directory(rulesetId, true).value))
         && storage.files == old(storage.files) && cache.entries == old(cache.entries))
      ensures (GetLegacyScore(db, legacyScoreId, rulesetId).Success? && GetLegacyScore(db, legacyScoreId, rulesetId).value.Some?
               && storage.Directory(rulesetId, true).value in storage.directories) ==>
        (var score := GetLegacyScore(db, legacyScoreId, rulesetId).value.value;
         var header := LegacyReplayBytes(db, upload, rulesetId, score, md5);
         storage.files == Written(old(storage.files), storage.Path(legacyScoreId, rulesetId, true).value, [])
         && (header.Failure? ==> response == Raised(header.error) && cache.entries == old(cache.entries))
         && (header.Success? ==>
               response == NoContent
               && cache.entries == old(cache.entries)[CacheKey(legacyScoreId, rulesetId, true) := Entry(header.value, now + ONE_DAY)]))
    {
      var found := GetLegacyScore(db, legacyScoreId, rulesetId);
      if found.Failure? {
        return Raised(found.error);
      }
      var score := found.value;
      if score.None? {
        return NotFound;
      }
      var replayStream := new MemoryStream.FromBytes(upload);
      var memoryStream := new MemoryStream.Empty();
      replayStream.CopyTo(memoryStream);
      var replayBytes := memoryStream.ToArray();
      OverwriteAtEnd([], upload);
      assert [] + upload == upload;
      var stored := storage.StoreReplay(legacyScoreId, rulesetId, true, replayStream);
      if stored.Failure? {
        return Raised(stored.error);
      }
      assert upload[|upload|..] == [];
      var replayWithHeaders := CreateLegacyReplayWithHeaders(db, replayBytes, rulesetId, score.value, md5);
      if replayWithHeaders.Failure? {
        return Raised(replayWithHeaders.error);
      }
      var headerBytes := replayWithHeaders.value.ReadAllRemaining();
      cache.Set(CacheKey(legacyScoreId, rulesetId, true), headerBytes, now);
      return NoContent;
    }

    /** `GetReplayAsync`: changes nothing and answers `SoloDownload`. */
    method GetReplay(db: Database, scoreId: i64, now: int) returns (response: Response)
      ensures response == SoloDownload(db, storage.files, storage.directories, storage.baseDirectory,
                                       storage.legacyBaseDirectory, cache.entries, scoreId, now)
    {
      var score := GetScore(db, scoreId);
      if score.None? || !score.value.hasReplay {
        return NotFound;
      }
      var fileName := ReplayFileName(scoreId, score.value.beatmapId, score.value.rulesetId, false);
      if fileName.Failure? {
        return Raised(fileName.error);
      }
      var cachedReplay := cache.Get(CacheKey(scoreId, score.value.rulesetId, false), now);
      if cachedReplay.Some? {
        return File(cachedReplay.value, CONTENT_TYPE, fileName.value, "1");
      }
      var replayStream := storage.GetReplayStream(scoreId, score.value.rulesetId, false);
      if replayStream.Failure? {
        return Raised(replayStream.error);
      }
      return File(replayStream.value.data, CONTENT_TYPE, fileName.value, "0");
    }

    /** `GetLegacyReplayAsync`: changes nothing and answers `LegacyDownload`. */
    method GetLegacyReplay(db: Database, rulesetId: u16, legacyScoreId: i64, now: int, md5: string -> string)
      returns (response: Response)
      ensures response == LegacyDownload(db, storage.files, storage.directories, storage.baseDirectory,
                                         storage.legacyBaseDirectory, cache.entries, rulesetId, legacyScoreId, now, md5)
    {
      var found := GetLegacyScore(db, legacyScoreId, rulesetId);
      if found.Failure? {
        return Raised(found.error);
      }
      var score := found.value;
      if score.None? || !score.value.replay {
        return NotFound;
      }
      // The ruleset was resolved by the score lookup, so the name is built.
      ReplayFileNameShape(legacyScoreId, AsUnsigned(score.value.beatmapId), rulesetId, true);
      var fileName := ReplayFileName(legacyScoreId, AsUnsigned(score.value.beatmapId), rulesetId, true);
      var cachedReplay := cache.Get(CacheKey(legacyScoreId, rulesetId, true), now);
      if cachedReplay.Some? {
        return File(cachedReplay.value, CONTENT_TYPE, fileName.value, "1");
      }
      var replayStream := storage.GetReplayStream(legacyScoreId, rulesetId, true);
      if replayStream.Failure? {
        return Raised(replayStream.error);
      }
      var frames := replayStream.value.ReadAllRemaining();
      var replayWithHeaders := CreateLegacyReplayWithHeaders(db, frames, rulesetId, score.value, md5);
      if replayWithHeaders.Failure? {
        return Raised(replayWithHeaders.error);
      }
      return File(replayWithHeaders.value.data, CONTENT_TYPE, fileName.value, "0");
    }

    /** `DeleteReplayAsync`: the stored file, then the cache entry. Storage
        deletion is silent for a missing file or directory, so every score
        with a replay ends in 204. */
    method DeleteReplay(db: Database, scoreId: i64) returns (response: Response)
      modifies storage, cache
      ensures storage.directories == old(storage.directories)
      ensures (GetScore(db, scoreId).None? || !GetScore(db, scoreId).value.hasReplay) ==>
        response == NotFound && storage.files == old(storage.files) && cache.entries == old(cache.entries)
      ensures (GetScore(db, scoreId).Some? && GetScore(db, scoreId).value.hasReplay) ==>
        (response == NoContent
         && storage.files == old(storage.files) - {Combine(storage.baseDirectory, ScoreFileName(scoreId))}
         && cache.entries == old(cache.entries) - {CacheKey(scoreId, GetScore(db, scoreId).value.rulesetId, false)})
    {
      var score := GetScore(db, scoreId);
      if score.None? || !score.value.hasReplay {
        return NotFound;
      }
      var deleted := storage.DeleteReplay(scoreId, score.value.rulesetId, false);
      assert deleted.Success?;
      cache.Remove(CacheKey(scoreId, score.value.rulesetId, false));
      return NoContent;
    }

    /** `DeleteLegacyReplayAsync`: as `DeleteReplay`, once the ruleset is
        valid and the legacy score has a replay. */
    method DeleteLegacyReplay(db: Database, rulesetId: u16, legacyScoreId: i64) returns (response: Response)
      modifies storage, cache
      ensures storage.directories == old(storage.directories)
      ensures GetLegacyScore(db, legacyScoreId, rulesetId).Failure? ==>
        (response == Raised(InvalidRuleset(rulesetId))
         && storage.files == old(storage.files) && cache.entries == old(cache.entries))
      ensures (GetLegacyScore(db, legacyScoreId, rulesetId).Success?
               && (GetLegacyScore(db, legacyScoreId, rulesetId).value.None?
                   || !GetLegacyScore(db, legacyScoreId, rulesetId).value.value.replay)) ==>
        response == NotFound && storage.files == old(storage.files) && cache.entries == old(cache.entries)
      ensures (GetLegacyScore(db, legacyScoreId, rulesetId).Success? && GetLegacyScore(db, legacyScoreId, rulesetId).value.Some?
               && GetLegacyScore(db, legacyScoreId, rulesetId).value.value.replay) ==>
        (response == NoContent
         && storage.files == old(storage.files) - {storage.Path(legacyScoreId, rulesetId, true).value}
         && cache.entries == old(cache.entries) - {CacheKey(legacyScoreId, rulesetId, true)})
    {
      var found := GetLegacyScore(db, legacyScoreId, rulesetId);
      if found.Failure? {
        return Raised(found.error);
      }
      var score := found.value;
      if score.None? || !score.value.replay {
        return NotFound;
      }
      var deleted := storage.DeleteReplay(legacyScoreId, rulesetId, true);
      assert deleted.Success?;
      cache.Remove(CacheKey(legacyScoreId, rulesetId, true));
      return NoContent;
    }
  }

  /** Within a day of an upload, a download of the same score is served from
      the cache and is exactly the upload. */
  lemma DownloadWithinDayIsUpload(db: Database, files: map<string, seq<byte>>, directories: set<string>, baseDirectory: string,
                                  legacyTemplate: string, entries: map<string, Entry>, scoreId: int, upload: seq<byte>,
                                  now: int, later: int)
    requires GetScore(db, scoreId).Some? && GetScore(db, scoreId).value.hasReplay
    requires Rulesets.IsValidRulesetId(GetScore(db, scoreId).value.rulesetId)
    requires now <= later < now + ONE_DAY
    ensures var score := GetScore(db, scoreId).value;
            var after := entries[CacheKey(scoreId, score.rulesetId, false) := Entry(upload, now + ONE_DAY)];
            SoloDownload(db, files, directories, baseDirectory, legacyTemplate, after, scoreId, later)
              == File(upload, CONTENT_TYPE, ReplayFileName(scoreId, score.beatmapId, score.rulesetId, false).value, "1")
  {
    var score := GetScore(db, scoreId).value;
    ReplayFileNameShape(scoreId, score.beatmapId, score.rulesetId, false);
    SetThenGet(entries, CacheKey(scoreId, score.rulesetId, false), upload, now, later);
  }

  /** The same for a legacy score: within a day of an upload, a download is
      served from the cache and is the upload wrapped in the legacy header. */
  lemma LegacyDownloadWithinDayIsUpload(db: Database, files: map<string, seq<byte>>, directories: set<string>, baseDirectory: string,
                                        legacyTemplate: string, entries: map<string, Entry>, rulesetId: u16, legacyScoreId: int,
                                        upload: seq<byte>, now: int, later: int, md5: string -> string)
    requires GetLegacyScore(db, legacyScoreId, rulesetId).Success? && GetLegacyScore(db, legacyScoreId, rulesetId).value.Some?
    requires GetLegacyScore(db, legacyScoreId, rulesetId).value.value.replay
    requires LegacyReplayBytes(db, upload, rulesetId, GetLegacyScore(db, legacyScoreId, rulesetId).value.value, md5).Success?
    requires now <= later < now + ONE_DAY
    ensures var score := GetLegacyScore(db, legacyScoreId, rulesetId).value.value;
            var bytes := LegacyReplayBytes(db, upload, rulesetId, score, md5).value;
            var after := entries[CacheKey(legacyScoreId, rulesetId, true) := Entry(bytes, now + ONE_DAY)];
            LegacyDownload(db, files, directories, baseDirectory, legacyTemplate, after, rulesetId, legacyScoreId, later, md5)
              == File(bytes, CONTENT_TYPE, ReplayFileName(legacyScoreId, AsUnsigned(score.beatmapId), rulesetId, true).value, "1")
  {
    var score := GetLegacyScore(db, legacyScoreId, rulesetId).value.value;
    var bytes := LegacyReplayBytes(db, upload, rulesetId, score, md5).value;
    ReplayFileNameShape(legacyScoreId, AsUnsigned(score.beatmapId), rulesetId, true);
    SetThenGet(entries, CacheKey(legacyScoreId, rulesetId, true), bytes, now, later);
  }

  /** As written, with the local-disk storage, once the cache entry has
      expired a solo replay uploaded for a new score is downloaded from
      storage as an empty file: none of the upload's bytes reached the disk. */
  lemma UploadLostAfterExpiry(db: Database, files: map<string, seq<byte>>, directories: set<string>, baseDirectory: string,
                              legacyTemplate: string, entries: map<string, Entry>, scoreId: int, upload: seq<byte>,
                              now: int, later: int)
    requires GetScore(db, scoreId).Some? && GetScore(db, scoreId).value.hasReplay
    requires Rulesets.IsValidRulesetId(GetScore(db, scoreId).value.rulesetId)
    requires baseDirectory in directories && Combine(baseDirectory, ScoreFileName(scoreId)) !in files
    requires upload != [] && later >= now + ONE_DAY
    ensures var score := GetScore(db, scoreId).value;
            var key := CacheKey(scoreId, score.rulesetId, false);
            var download := SoloDownload(db, Written(files, Combine(baseDirectory, ScoreFileName(scoreId)), []), directories,
                                         baseDirectory, legacyTemplate, entries[key := Entry(upload, now + ONE_DAY)], scoreId, later);
            download == File([], CONTENT_TYPE, ReplayFileName(scoreId, score.beatmapId, score.rulesetId, false).value, "0")
            && download.body != upload
  {
    var score := GetScore(db, scoreId).value;
    var path := Combine(baseDirectory, ScoreFileName(scoreId));
    ReplayFileNameShape(scoreId, score.beatmapId, score.rulesetId, false);
    SetThenGet(entries, CacheKey(scoreId, score.rulesetId, false), upload, now, later);
    WrittenNothing(files, path);
  }

  /** With the corrected upload, once the cache entry has expired a new
      score's replay is downloaded from storage and is exactly the upload. */
  lemma UploadKeptAfterExpiry(db: Database, files: map<string, seq<byte>>, directories: set<string>, baseDirectory: string,
                              legacyTemplate: string, entries: map<string, Entry>, scoreId: int, upload: seq<byte>,
                              now: int, later: int)
    requires GetScore(db, scoreId).Some? && GetScore(db, scoreId).value.hasReplay
    requires Rulesets.IsValidRulesetId(GetScore(db, scoreId).value.rulesetId)
    requires baseDirectory in directories && Combine(baseDirectory, ScoreFileName(scoreId)) !in files
    requires later >= now + ONE_DAY
    ensures var score := GetScore(db, scoreId).value;
            var key := CacheKey(scoreId, score.rulesetId, false);
            SoloDownload(db, Written(files, Combine(baseDirectory, ScoreFileName(scoreId)), upload), directories,
                         baseDirectory, legacyTemplate, entries[key := Entry(upload, now + ONE_DAY)], scoreId, later)
              == File(upload, CONTENT_TYPE, ReplayFileName(scoreId, score.beatmapId, score.rulesetId, false).value, "0")
  {
    var score := GetScore(db, scoreId).value;
    var path := Combine(baseDirectory, ScoreFileName(scoreId));
    ReplayFileNameShape(scoreId, score.beatmapId, score.rulesetId, false);
    SetThenGet(entries, CacheKey(scoreId, score.rulesetId, false), upload, now, later);
    WrittenReadsBack(files, path, upload);
  }

  /** After a delete, a download of the score (whose row still says it has a
      replay) misses the cache and raises for the missing file rather than
      answering "not found". */
  lemma DownloadAfterDeleteRaises(db: Database, files: map<string, seq<byte>>, directories: set<string>, baseDirectory: string,
                                  legacyTemplate: string, entries: map<string, Entry>, scoreId: int, now: int)
    requires GetScore(db, scoreId).Some? && GetScore(db, scoreId).value.hasReplay
    requires Rulesets.IsValidRulesetId(GetScore(db, scoreId).value.rulesetId)
    requires baseDirectory in directories
    ensures var score := GetScore(db, scoreId).value;
            var path := Combine(baseDirectory, ScoreFileName(scoreId));
            SoloDownload(db, files - {path}, directories, baseDirectory, legacyTemplate,
                         entries - {CacheKey(scoreId, score.rulesetId, false)}, scoreId, now)
              == Raised(FileNotFound(path))
  {
    var score := GetScore(db, scoreId).value;
    ReplayFileNameShape(scoreId, score.beatmapId, score.rulesetId, false);
    RemoveThenGet(entries, CacheKey(scoreId, score.rulesetId, false), now);
  }
}
