/** `ReplayStoreController` of the ReplayStore service: the `replays` routes
    over the durable storage and the dated file cache. The database, the
    current date and the MD5 digest function are parameters. Downloads are
    specified by `StoreSoloDownload` and `StoreLegacyDownload`. */
module StoreController {
  import opened Wrappers
  import opened Numbers
  import opened Errors
  import opened Records
  import opened Streams
  import opened Paths
  import opened Dates
  import opened ReplayPaths
  import opened LocalStorage
  import opened FileCache
  import opened Requests
  import Rulesets

  /** What `FindReplayDataAsync` yields on the cache disk's state. */
  function Cached(roots: map<string, seq<Bucket>>, cacheDirectory: string, cacheLegacyTemplate: string,
                  scoreId: int, rulesetId: int, legacy: bool): Result<Option<seq<byte>>, Error>
  {
    var root :- RootDirectory(cacheDirectory, cacheLegacyTemplate, rulesetId, legacy);
    if root !in roots then Failure(DirectoryNotFound(root)) else Success(Lookup(roots[root], ScoreFileName(scoreId)))
  }

  /** The two tiers as a download sees them. */
  datatype Tiers = Tiers(files: map<string, seq<byte>>, directories: set<string>, baseDirectory: string, legacyTemplate: string,
                         roots: map<string, seq<Bucket>>, cacheDirectory: string, cacheLegacyTemplate: string)

  /** The response to `GET replays/{scoreId}`: the cache first, then storage.
      A cache root that does not exist yet raises rather than falling through. */
  function StoreSoloDownload(db: Database, t: Tiers, scoreId: int): Response {
    match GetScore(db, scoreId)
    case None => NotFound
    case Some(score) =>
      if !score.hasReplay then NotFound
      else match ReplayFileName(scoreId, score.beatmapId, score.rulesetId, false)
        case Failure(e) => Raised(e)
        case Success(fileName) =>
          match Cached(t.roots, t.cacheDirectory, t.cacheLegacyTemplate, scoreId, score.rulesetId, false)
          case Failure(e) => Raised(e)
          case Success(Some(cached)) => File(cached, CONTENT_TYPE, fileName, "1")
          case Success(None) =>
            match StoredReplay(t.files, t.directories, t.baseDirectory, t.legacyTemplate, scoreId, score.rulesetId, false)
            case Failure(e) => Raised(e)
            case Success(bytes) => File(bytes, CONTENT_TYPE, fileName, "0")
  }

  /** The response to `GET replays/{rulesetId}/{legacyScoreId}`: a cache hit
      is served as cached; stored frames are wrapped in the legacy header. */
  function StoreLegacyDownload(db: Database, t: Tiers, rulesetId: u16, legacyScoreId: int, md5: string -> string): Response {
    match GetLegacyScore(db, legacyScoreId, rulesetId)
    case Failure(e) => Raised(e)
    case Success(None) => NotFound
    case Success(Some(score)) =>
      if !score.replay then NotFound
      else match ReplayFileName(legacyScoreId, AsUnsigned(score.beatmapId), rulesetId, true)
        case Failure(e) => Raised(e)
        case Success(fileName) =>
          match Cached(t.roots, t.cacheDirectory, t.cacheLegacyTemplate, legacyScoreId, rulesetId, true)
          case Failure(e) => Raised(e)
          case Success(Some(cached)) => File(cached, CONTENT_TYPE, fileName, "1")
          case Success(None) =>
            match StoredReplay(t.files, t.directories, t.baseDirectory, t.legacyTemplate, legacyScoreId, rulesetId, true)
            case Failure(e) => Raised(e)
            case Success(frames) =>
              match LegacyReplayBytes(db, frames, rulesetId, score, md5)
              case Failure(e) => Raised(e)
              case Success(bytes) => File(bytes, CONTENT_TYPE, fileName, "0")
  }

  class ReplayStoreController {
    const storage: LocalReplayStorage
    const cache: FileReplayCache

    constructor(replayStorage: LocalReplayStorage, replayCache: FileReplayCache)
      ensures storage == replayStorage && cache == replayCache
    {
      storage := replayStorage;
      cache := replayCache;
    }

    /** Both tiers' current state. */
    function State(): Tiers
      reads this, storage, cache, cache.disk
    {
      Tiers(storage.files, storage.directories, storage.baseDirectory, storage.legacyBaseDirectory,
            cache.disk.roots, cache.baseDirectory, cache.legacyBaseDirectory)
    }

    /** `PutReplayAsync`: the upload is read whole, the stream is rewound,
        and both tiers receive the whole upload. */
    method PutReplay(db: Database, scoreId: i64, upload: seq<byte>, today: Date) returns (response: Response)
      requires cache.disk.Valid() && IsValid(today)
      modifies storage, cache.disk
      ensures cache.disk.Valid() && storage.directories == old(storage.directories)
      ensures GetScore(db, scoreId).None? ==>
        response == NotFound && storage.files == old(storage.files) && cache.disk.roots == old(cache.disk.roots)
      ensures GetScore(db, scoreId).Some? && storage.baseDirectory !in storage.directories ==>
        (response == Raised(DirectoryNotFound(storage.baseDirectory))
         && storage.files == old(storage.files) && cache.disk.roots == old(cache.disk.roots))
      ensures GetScore(db, scoreId).Some? && storage.baseDirectory in storage.directories ==>
        (var root := cache.baseDirectory;
         response == NoContent
         && storage.files == Written(old(storage.files), Combine(storage.baseDirectory, ScoreFileName(scoreId)), upload)
         && cache.disk.roots == old(cache.disk.roots)[root := Added(BucketsOf(old(cache.disk.roots), root), Dates.Format(today),
                                                                   ScoreFileName(scoreId), upload)])
    {
      var score := GetScore(db, scoreId);
      if score.None? {
        return NotFound;
      }
      var replayStream := new MemoryStream.FromBytes(upload);
      var replayBytes := replayStream.ReadAllRemaining();
      replayStream.Rewind();
      var stored := storage.StoreReplay(scoreId, score.value.rulesetId, false, replayStream);
      if stored.Failure? {
        return Raised(stored.error);
      }
      assert upload[0..] == upload;
      var added := cache.Add(scoreId, score.value.rulesetId, false, replayBytes, today);
      return NoContent;
    }

    /** `PutLegacyReplayAsync`: storage gets the upload, the cache the upload
        wrapped in the legacy header. The header is built after the storage
        write, so a failing header leaves storage written and the cache as it was. */
    method PutLegacyReplay(db: Database, rulesetId: u16, legacyScoreId: i64, upload: seq<byte>, today: Date, md5: string -> string)
      returns (response: Response)
      requires cache.disk.Valid() && IsValid(today)
      modifies storage, cache.disk
      ensures cache.disk.Valid() && storage.directories == old(storage.directories)
      ensures GetLegacyScore(db, legacyScoreId, rulesetId).Failure? ==>
        (response == Raised(InvalidRuleset(rulesetId))
         && storage.files == old(storage.files) && cache.disk.roots == old(cache.disk.roots))
      ensures GetLegacyScore(db, legacyScoreId, rulesetId) == Success(None) ==>
        response == NotFound && storage.files == old(storage.files) && cache.disk.roots == old(cache.disk.roots)
      ensures (GetLegacyScore(db, legacyScoreId, rulesetId).Success? && GetLegacyScore(db, legacyScoreId, rulesetId).value.Some?
               && storage.Directory(rulesetId, true).value !in storage.directories) ==>
        (response == Raised(DirectoryNotFound(storage.Directory(rulesetId, true).value))
         && storage.files == old(storage.files) && cache.disk.roots == old(cache.disk.roots))
      ensures (GetLegacyScore(db, legacyScoreId, rulesetId).Success? && GetLegacyScore(db, legacyScoreId, rulesetId).value.Some?
               && storage.Directory(rulesetId, true).value in storage.directories) ==>
        (var score := GetLegacyScore(db, legacyScoreId, rulesetId).value.value;
         var header := LegacyReplayBytes(db, upload, rulesetId, score, md5);
         var root := cache.Root(rulesetId, true).value;
         storage.files == Written(old(storage.files), storage.Path(legacyScoreId, rulesetId, true).value, upload)
         && (header.Failure? ==> response == Raised(header.error) && cache.disk.roots == old(cache.disk.roots))
         && (header.Success? ==>
               response == NoContent
               && cache.disk.roots == old(cache.disk.roots)[root := Added(BucketsOf(old(cache.disk.roots), root), Dates.Format(today),
                                                                          ScoreFileName(legacyScoreId), header.value)]))
    {
      var found := GetLegacyScore(db, legacyScoreId, rulesetId);
      if found.Failure? {
        return Raised(found.error);
      }
      var score := found.value;
      if score.None? {
        return NotFound;
      }
      var replayStream := new MemoryStream.FromBytes(upload);
      var replayBytes := replayStream.ReadAllRemaining();
      replayStream.Rewind();
      var stored := storage.StoreReplay(legacyScoreId, rulesetId, true, replayStream);
      if stored.Failure? {
        return Raised(stored.error);
      }
      assert upload[0..] == upload;
      var replayWithHeaders := CreateLegacyReplayWithHeaders(db, replayBytes, rulesetId, score.value, md5);
      if replayWithHeaders.Failure? {
        return Raised(replayWithHeaders.error);
      }
      var headerBytes := replayWithHeaders.value.ReadAllRemaining();
      var added := cache.Add(legacyScoreId, rulesetId, true, headerBytes, today);
      return NoContent;
    }

    /** `GetReplayAsync`: changes nothing and answers `StoreSoloDownload`. */
    method GetReplay(db: Database, scoreId: i64) returns (response: Response)
      ensures response == StoreSoloDownload(db, State(), scoreId)
    {
      var score := GetScore(db, scoreId);
      if score.None? || !score.value.hasReplay {
        return NotFound;
      }
      var fileName := ReplayFileName(scoreId, score.value.beatmapId, score.value.rulesetId, false);
      if fileName.Failure? {
        return Raised(fileName.error);
      }
      var cachedReplay := cache.FindReplayData(scoreId, score.value.rulesetId, false);
      if cachedReplay.Failure? {
        return Raised(cachedReplay.error);
      }
      if cachedReplay.value.Some? {
        return File(cachedReplay.value.value, CONTENT_TYPE, fileName.value, "1");
      }
      var replayStream := storage.GetReplayStream(scoreId, score.value.rulesetId, false);
      if replayStream.Failure? {
        return Raised(replayStream.error);
      }
      return File(replayStream.value.data, CONTENT_TYPE, fileName.value, "0");
    }

    /** `GetLegacyReplayAsync`: changes nothing and answers `StoreLegacyDownload`. */
    method GetLegacyReplay(db: Database, rulesetId: u16, legacyScoreId: i64, md5: string -> string) returns (response: Response)
      ensures response == StoreLegacyDownload(db, State(), rulesetId, legacyScoreId, md5)
    {
      var found := GetLegacyScore(db, legacyScoreId, rulesetId);
      if found.Failure? {
        return Raised(found.error);
      }
      var score := found.value;
      if score.None? || !score.value.replay {
        return NotFound;
      }
      // The ruleset was resolved by the score lookup, so the name is built.
      ReplayFileNameShape(legacyScoreId, AsUnsigned(score.value.beatmapId), rulesetId, true);
      var fileName := ReplayFileName(legacyScoreId, AsUnsigned(score.value.beatmapId), rulesetId, true);
      var cachedReplay := cache.FindReplayData(legacyScoreId, rulesetId, true);
      if cachedReplay.Failure? {
        return Raised(cachedReplay.error);
      }
      if cachedReplay.value.Some? {
        return File(cachedReplay.value.value, CONTENT_TYPE, fileName.value, "1");
      }
      var replayStream := storage.GetReplayStream(legacyScoreId, rulesetId, true);
      if replayStream.Failure? {
        return Raised(replayStream.error);
      }
      var frames := replayStream.value.ReadAllRemaining();
      var replayWithHeaders := CreateLegacyReplayWithHeaders(db, frames, rulesetId, score.value, md5);
      if replayWithHeaders.Failure? {
        return Raised(replayWithHeaders.error);
      }
      return File(replayWithHeaders.value.data, CONTENT_TYPE, fileName.value, "0");
    }

    /** `DeleteReplayAsync`: the stored file, then the first cached copy.
        Storage deletion is silent for a missing file or directory; only a
        missing cache root raises. */
    method DeleteReplay(db: Database, scoreId: i64) returns (response: Response)
      requires cache.disk.Valid()
      modifies storage, cache.disk
      ensures cache.disk.Valid() && storage.directories == old(storage.directories)
      ensures (GetScore(db, scoreId).None? || !GetScore(db, scoreId).value.hasReplay) ==>
        response == NotFound && storage.files == old(storage.files) && cache.disk.roots == old(cache.disk.roots)
      ensures (GetScore(db, scoreId).Some? && GetScore(db, scoreId).value.hasReplay) ==>
        (var root := cache.baseDirectory;
         storage.files == old(storage.files) - {Combine(storage.baseDirectory, ScoreFileName(scoreId))}
         && (root !in old(cache.disk.roots) ==>
               response == Raised(DirectoryNotFound(root)) && cache.disk.roots == old(cache.disk.roots))
         && (root in old(cache.disk.roots) ==>
               response == NoContent
               && cache.disk.roots == old(cache.disk.roots)[root := RemoveFirst(old(cache.disk.roots)[root], ScoreFileName(scoreId))]))
    {
      var score := GetScore(db, scoreId);
      if score.None? || !score.value.hasReplay {
        return NotFound;
      }
      var deleted := storage.DeleteReplay(scoreId, score.value.rulesetId, false);
      assert deleted.Success?;
      var removed := cache.Remove(scoreId, score.value.rulesetId, false);
      if removed.Failure? {
        return Raised(removed.error);
      }
      return NoContent;
    }

    /** `DeleteLegacyReplayAsync`: as `DeleteReplay`, below the ruleset's
        legacy directories. */
    method DeleteLegacyReplay(db: Database, rulesetId: u16, legacyScoreId: i64) returns (response: Response)
      requires cache.disk.Valid()
      modifies storage, cache.disk
      ensures cache.disk.Valid() && storage.directories == old(storage.directories)
      ensures GetLegacyScore(db, legacyScoreId, rulesetId).Failure? ==>
        (response == Raised(InvalidRuleset(rulesetId))
         && storage.files == old(storage.files) && cache.disk.roots == old(cache.disk.roots))
      ensures (GetLegacyScore(db, legacyScoreId, rulesetId).Success?
               && (GetLegacyScore(db, legacyScoreId, rulesetId).value.None?
                   || !GetLegacyScore(db, legacyScoreId, rulesetId).value.value.replay)) ==>
        response == NotFound && storage.files == old(storage.files) && cache.disk.roots == old(cache.disk.roots)
      ensures (GetLegacyScore(db, legacyScoreId, rulesetId).Success? && GetLegacyScore(db, legacyScoreId, rulesetId).value.Some?
               && GetLegacyScore(db, legacyScoreId, rulesetId).value.value.replay) ==>
        (var root := cache.Root(rulesetId, true).value;
         storage.files == old(storage.files) - {storage.Path(legacyScoreId, rulesetId, true).value}
         && (root !in old(cache.disk.roots) ==>
               response == Raised(DirectoryNotFound(root)) && cache.disk.roots == old(cache.disk.roots))
         && (root in old(cache.disk.roots) ==>
               response == NoContent
               && cache.disk.roots == old(cache.disk.roots)[root := RemoveFirst(old(cache.disk.roots)[root], ScoreFileName(legacyScoreId))]))
    {
      var found := GetLegacyScore(db, legacyScoreId, rulesetId);
      if found.Failure? {
        return Raised(found.error);
      }
      var score := found.value;
      if score.None? || !score.value.replay {
        return NotFound;
      }
      var deleted := storage.DeleteReplay(legacyScoreId, rulesetId, true);
      assert deleted.Success?;
      var removed := cache.Remove(legacyScoreId, rulesetId, true);
      if removed.Failure? {
        return Raised(removed.error);
      }
      return NoContent;
    }
  }

  /** Unlike the ReplayCache upload, an upload here reaches storage whole:
      once the cached copy is gone, a download of a new score's replay is
      served from storage and is exactly the upload. */
  lemma UploadKeptAfterCacheExpiry(db: Database, t: Tiers, scoreId: int, upload: seq<byte>)
    requires GetScore(db, scoreId).Some? && GetScore(db, scoreId).value.hasReplay
    requires Rulesets.IsValidRulesetId(GetScore(db, scoreId).value.rulesetId)
    requires t.baseDirectory in t.directories && Combine(t.baseDirectory, ScoreFileName(scoreId)) !in t.files
    requires t.cacheDirectory in t.roots && Lookup(t.roots[t.cacheDirectory], ScoreFileName(scoreId)).None?
    ensures var score := GetScore(db, scoreId).value;
            var path := Combine(t.baseDirectory, ScoreFileName(scoreId));
            StoreSoloDownload(db, t.(files := Written(t.files, path, upload)), scoreId)
              == File(upload, CONTENT_TYPE, ReplayFileName(scoreId, score.beatmapId, score.rulesetId, false).value, "0")
  {
    var score := GetScore(db, scoreId).value;
    var path := Combine(t.baseDirectory, ScoreFileName(scoreId));
    ReplayFileNameShape(scoreId, score.beatmapId, score.rulesetId, false);
    WrittenReadsBack(t.files, path, upload);
  }

  /** Right after an upload, a download is served from the cache and is
      exactly the upload, provided no other dated directory holds a copy of
      the score. */
  lemma DownloadAfterUploadIsUpload(db: Database, t: Tiers, scoreId: int, upload: seq<byte>, today: Date)
    requires GetScore(db, scoreId).Some? && GetScore(db, scoreId).value.hasReplay
    requires Rulesets.IsValidRulesetId(GetScore(db, scoreId).value.rulesetId) && IsValid(today)
    requires var buckets := BucketsOf(t.roots, t.cacheDirectory);
             forall j | 0 <= j < |buckets| && buckets[j].name != Dates.Format(today) :: ScoreFileName(scoreId) !in buckets[j].files
    ensures var score := GetScore(db, scoreId).value;
            var root := t.cacheDirectory;
            var after := t.roots[root := Added(BucketsOf(t.roots, root), Dates.Format(today), ScoreFileName(scoreId), upload)];
            StoreSoloDownload(db, t.(roots := after), scoreId)
              == File(upload, CONTENT_TYPE, ReplayFileName(scoreId, score.beatmapId, score.rulesetId, false).value, "1")
  {
    var score := GetScore(db, scoreId).value;
    ReplayFileNameShape(scoreId, score.beatmapId, score.rulesetId, false);
    AddThenFind(BucketsOf(t.roots, t.cacheDirectory), Dates.Format(today), ScoreFileName(scoreId), upload);
  }

  /** The same for a legacy score: right after an upload, a download is
      served from the ruleset's cache root and is the upload wrapped in the
      legacy header, provided no other dated directory there holds a copy. */
  lemma LegacyDownloadAfterUploadIsUpload(db: Database, t: Tiers, rulesetId: u16, legacyScoreId: int, upload: seq<byte>,
                                          today: Date, md5: string -> string)
    requires GetLegacyScore(db, legacyScoreId, rulesetId).Success? && GetLegacyScore(db, legacyScoreId, rulesetId).value.Some?
    requires GetLegacyScore(db, legacyScoreId, rulesetId).value.value.replay && IsValid(today)
    requires LegacyReplayBytes(db, upload, rulesetId, GetLegacyScore(db, legacyScoreId, rulesetId).value.value, md5).Success?
    requires var root := RootDirectory(t.cacheDirectory, t.cacheLegacyTemplate, rulesetId, true);
             var buckets := if root.Success? then BucketsOf(t.roots, root.value) else [];
             forall j | 0 <= j < |buckets| && buckets[j].name != Dates.Format(today) :: ScoreFileName(legacyScoreId) !in buckets[j].files
    ensures var score := GetLegacyScore(db, legacyScoreId, rulesetId).value.value;
            var bytes := LegacyReplayBytes(db, upload, rulesetId, score, md5).value;
            var root := RootDirectory(t.cacheDirectory, t.cacheLegacyTemplate, rulesetId, true).value;
            var after := t.roots[root := Added(BucketsOf(t.roots, root), Dates.Format(today), ScoreFileName(legacyScoreId), bytes)];
            StoreLegacyDownload(db, t.(roots := after), rulesetId, legacyScoreId, md5)
              == File(bytes, CONTENT_TYPE, ReplayFileName(legacyScoreId, AsUnsigned(score.beatmapId), rulesetId, true).value, "1")
  {
    var score := GetLegacyScore(db, legacyScoreId, rulesetId).value.value;
    var bytes := LegacyReplayBytes(db, upload, rulesetId, score, md5).value;
    ReplayFileNameShape(legacyScoreId, AsUnsigned(score.beatmapId), rulesetId, true);
    CachedAfterAdd(t.roots, t.cacheDirectory, t.cacheLegacyTemplate, legacyScoreId, rulesetId, true, bytes, today);
  }

  /** After an add, a lookup in the same root finds the added bytes, provided
      no other dated directory there holds a copy. */
  lemma CachedAfterAdd(roots: map<string, seq<Bucket>>, cacheDirectory: string, cacheLegacyTemplate: string,
                       scoreId: int, rulesetId: int, legacy: bool, data: seq<byte>, today: Date)
    requires RootDirectory(cacheDirectory, cacheLegacyTemplate, rulesetId, legacy).Success? && IsValid(today)
    requires var buckets := BucketsOf(roots, RootDirectory(cacheDirectory, cacheLegacyTemplate, rulesetId, legacy).value);
             forall j | 0 <= j < |buckets| && buckets[j].name != Dates.Format(today) :: ScoreFileName(scoreId) !in buckets[j].files
    ensures var root := RootDirectory(cacheDirectory, cacheLegacyTemplate, rulesetId, legacy).value;
            var after := roots[root := Added(BucketsOf(roots, root), Dates.Format(today), ScoreFileName(scoreId), data)];
            Cached(after, cacheDirectory, cacheLegacyTemplate, scoreId, rulesetId, legacy) == Success(Some(data))
  {
    var root := RootDirectory(cacheDirectory, cacheLegacyTemplate, rulesetId, legacy).value;
    AddThenFind(BucketsOf(roots, root), Dates.Format(today), ScoreFileName(scoreId), data);
  }
}
