# osu! replay services — a verified model

This project models the two replay services of osu!.

- **ReplayCache** keeps replays in durable storage, with a distributed cache in front of it. Cache entries live for one day.
- **ReplayStore** keeps replays in durable storage, with a file cache in front of it. The file cache is a tree of dated directories named `ddMMyy`. A background worker deletes the directories that are older than the retention period.

Both services answer the same `replays` routes:
- upload (`PUT`), download (`GET`) and delete (`DELETE`);
- for solo scores, keyed by score id;
- for legacy scores, keyed by ruleset and score id.

A legacy download is built from the stored frames. The frames are wrapped in the header of the osu! legacy replay format. The header's fields come from the score, user, beatmap and replay-version rows.

The model is one Dafny module per concern:

| module | models |
|---|---|
| `Wrappers`, `Numbers`, `Errors` | option/result values, invariant-culture decimal text, the exceptions the code can raise |
| `Utf8`, `Binary`, `Streams` | the UTF-8 and little-endian encodings the replay writer emits, and an in-memory stream that is written without truncation |
| `Rulesets`, `Records` | ruleset names and table names, and the database rows as a value |
| `LegacyReplay` | `LegacyReplayHelper.WriteReplayWithHeader`, and a reader for the same format |
| `Paths`, `ReplayPaths`, `Dates` | `Path.Combine`, `string.Format` with `{0}`, the replay directories and file names, and `ddMMyy` dates |
| `LocalStorage` | `LocalReplayStorage`, a class over a map from paths to contents plus the set of existing directories |
| `FileCache` | `FileReplayCache` over a disk of roots, each holding dated buckets |
| `ExpireWorker` | `ExpireReplayCacheWorker`, the hourly sweep |
| `DistributedCache` | the distributed cache: entries with an absolute expiry time, in ticks |
| `Requests` | the responses, download file names, cache keys and the header builder shared by both controllers |
| `CacheController`, `StoreController` | the two controllers: each action is a method over both tiers, and downloads are specified by functions over the tiers' state |

Several source quirks are modelled as written:

- **Writes do not truncate.** `File.OpenWrite` does not truncate the file. A stored replay that is shorter than an older file at the same path leaves the old file's tail in place. See `LocalStorage.WrittenReadsBack`.
- **Cache lookup order.** A file-cache lookup returns the copy in the first dated directory that the file system enumerates. A removal deletes only that copy. See `FileCache.FindDependsOnOrder` and `FileCache.RemoveLeavesLaterCopies`.
- **Missing rows are not caught.** The header builder's `Debug.Assert`s are compiled out. A missing user row or beatmap row therefore surfaces as an error when the builder reads its fields.
- **The MD5 digest is written as text.** `LegacyReplayHelper.cs:20,27` writes the score checksum as the hex text returned by `ComputeMD5Hash`, encoded as a string; the model does the same, with the digest function as a parameter.

## Model

| member | source | states |
|---|---|---|
| Numbers.Decimal | osu.Server.ReplayCache/Services/LocalReplayStorage.cs:55-56 | invariant-culture integer text: digits only, with a leading minus exactly for negative numbers |
| Numbers.DecimalRoundTrip | osu.Server.ReplayCache/Services/LocalReplayStorage.cs:55-56 | the decimal text of a score id parses back to that id |
| Numbers.DecimalInjective | osu.Server.ReplayCache/Services/LocalReplayStorage.cs:55-56 | distinct ids have distinct texts, in both directions |
| Utf8.EncodeChar | osu.Server.ReplayCache/Helpers/LegacyReplayHelper.cs:25-27 | one to four bytes per character, and exactly one byte for ASCII |
| Utf8.DecodeEncode | osu.Server.ReplayCache/Helpers/LegacyReplayHelper.cs:25-27 | decoding the UTF-8 encoding of a string gives the string back |
| Utf8.EncodeInjective | osu.Server.ReplayCache/Helpers/LegacyReplayHelper.cs:25-27 | different strings have different encodings |
| Binary.SevenBitRoundTrip | osu.Server.ReplayCache/Helpers/LegacyReplayHelper.cs:25-27 | a 7-bit encoded string length reads back, together with the number of bytes it used |
| Binary.LittleEndianRoundTrip | osu.Server.ReplayCache/Helpers/LegacyReplayHelper.cs:28-37 | unsigned little-endian integers read back as the value written |
| Binary.SignedRoundTrip | osu.Server.ReplayCache/Helpers/LegacyReplayHelper.cs:24 | two's-complement integers read back as the value written |
| Binary.EncodeString | osu.Server.ReplayCache/Helpers/LegacyReplayHelper.cs:25-27 | a written string is a marker byte, a length and the payload: at least two bytes |
| Binary.EncodeByteArray | osu.Server.ReplayCache/Helpers/LegacyReplayHelper.cs:42 | a written byte array is a 4-byte length followed by the bytes |
| Binary.ReadByteRoundTrip | osu.Server.ReplayCache/Helpers/LegacyReplayHelper.cs:23 | the ruleset byte reads back, and the bytes after it are left untouched |
| Binary.ReadBoolRoundTrip | osu.Server.ReplayCache/Helpers/LegacyReplayHelper.cs:36 | the perfect flag reads back |
| Binary.ReadUInt16RoundTrip | osu.Server.ReplayCache/Helpers/LegacyReplayHelper.cs:28-33 | 16-bit counts read back |
| Binary.ReadInt32RoundTrip | osu.Server.ReplayCache/Helpers/LegacyReplayHelper.cs:24 | the 32-bit version, score and mods read back |
| Binary.ReadInt64RoundTrip | osu.Server.ReplayCache/Helpers/LegacyReplayHelper.cs:40 | the date's tick count reads back |
| Binary.ReadUInt64RoundTrip | osu.Server.ReplayCache/Helpers/LegacyReplayHelper.cs:43 | the score id reads back |
| Binary.ReadStringRoundTrip | osu.Server.ReplayCache/Helpers/LegacyReplayHelper.cs:25-27 | every string field (checksum, username, digest, life bar) reads back |
| Binary.ReadByteArrayRoundTrip | osu.Server.ReplayCache/Helpers/LegacyReplayHelper.cs:42 | the frame data reads back exactly |
| Streams.OverwriteAt | osu.Server.ReplayCache/Services/LocalReplayStorage.cs:25-26 | a write without truncation: the prefix is kept, the bytes land at the position, and the tail past them is kept |
| Streams.OverwriteFromStart | osu.Server.ReplayCache/Services/LocalReplayStorage.cs:25-26 | a write from position 0 replaces the contents exactly when the new bytes are at least as long |
| Streams.OverwriteAtEnd | osu.Server.ReplayCache/ReplayCacheController.cs:53-54 | writing at the end of a stream appends |
| Streams.OverwriteNothing | osu.Server.ReplayCache/ReplayCacheController.cs:58 | writing no bytes changes nothing |
| Streams.MemoryStream.FromBytes | osu.Server.ReplayCache/ReplayCacheController.cs:51 | the upload stream holds the upload and is positioned at its start |
| Streams.MemoryStream.Empty | osu.Server.ReplayCache/ReplayCacheController.cs:53 | a new memory stream is empty |
| Streams.MemoryStream.Write | osu.Server.ReplayCache/Helpers/LegacyReplayHelper.cs:18-43 | a write lands at the position, and the position moves past it |
| Streams.MemoryStream.Rewind | osu.Server.ReplayStore/ReplayStoreController.cs:56 | a seek to 0 keeps the contents |
| Streams.MemoryStream.ReadAllRemaining | osu.Server.ReplayStore/ReplayStoreController.cs:54 | returns the bytes from the position on, and leaves the stream exhausted |
| Streams.MemoryStream.ToArray | osu.Server.ReplayCache/ReplayCacheController.cs:56 | the whole contents, whatever the position |
| Streams.MemoryStream.CopyTo | osu.Server.ReplayCache/ReplayCacheController.cs:53-54 | copies the remaining bytes into the destination, and leaves the source exhausted |
| Rulesets.RulesetName | osu.Server.ReplayCache/Helpers/LegacyRulesetHelper.cs:8-27 | ids 0-3 name osu, taiko, fruits and mania; any other id is an argument error |
| Rulesets.TableSuffix | osu.Server.ReplayCache/Helpers/LegacyRulesetHelper.cs:41-48 | the name is resolved first; id 0 has no suffix, and the other ids have "_name" |
| Rulesets.HighScoreTable | osu.Server.ReplayCache/Helpers/LegacyRulesetHelper.cs:29-33 | osu_scores_high, or osu_scores_<name>_high; an invalid id fails |
| Rulesets.ReplayTable | osu.Server.ReplayCache/Helpers/LegacyRulesetHelper.cs:35-39 | osu_replays, or osu_replays_<name>; an invalid id fails |
| Rulesets.RulesetNameInjective | osu.Server.ReplayCache/Helpers/LegacyRulesetHelper.cs:8-27 | valid ids have distinct names |
| Rulesets.TablesInjective | osu.Server.ReplayCache/Helpers/LegacyRulesetHelper.cs:29-48 | distinct valid ids read distinct high-score tables and distinct replay tables |
| Records.GetLegacyScore | osu.Server.ReplayCache/DatabaseOperationExtensions.cs:23-33 | fails exactly for an invalid ruleset, because the table name is resolved before the query |
| Records.GetLegacyScoreVersion | osu.Server.ReplayCache/DatabaseOperationExtensions.cs:55-65 | fails exactly for an invalid ruleset |
| LegacyReplay.ReadStatisticsRoundTrip | osu.Server.ReplayCache/Helpers/LegacyReplayHelper.cs:28-37 | the written statistics read back in order, and the rest is left alone |
| LegacyReplay.WriteFields | osu.Server.ReplayCache/Helpers/LegacyReplayHelper.cs:18-43 | the writer calls in order produce exactly the replay's bytes |
| LegacyReplay.WriteReplayWithHeader | osu.Server.ReplayCache/Helpers/LegacyReplayHelper.cs:14-47 | returns a fresh stream holding exactly the replay, positioned at 0 |
| LegacyReplay.ParseReplayRoundTrip | osu.Server.ReplayCache/Helpers/LegacyReplayHelper.cs:14-47 | reading the written replay back gives every field: the ruleset's low byte, the version or default, the checksum, the username, the digest of "combo osu user checksum score rank", the statistics, an empty life bar, the date, the frames and the score id |
| LegacyReplay.ReplayStart | osu.Server.ReplayCache/Helpers/LegacyReplayHelper.cs:23-24 | the output starts with the ruleset byte and the version |
| LegacyReplay.ReplayEnd | osu.Server.ReplayCache/Helpers/LegacyReplayHelper.cs:39-43 | the output ends with the empty life bar, the date, the frames and the score id, and nothing follows them |
| Paths.Combine | osu.Server.ReplayCache/Services/LocalReplayStorage.cs:55-56 | a plain name combined below a directory ends the path |
| Paths.CombineInjective | osu.Server.ReplayCache/Services/LocalReplayStorage.cs:55-56 | below one directory, names and paths correspond one to one |
| Paths.CombineUnique | osu.Server.ReplayCache/Services/LocalReplayStorage.cs:55-56 | a combined path determines both its directory and its name |
| Paths.FileName | osu.Server.ReplayStore/ExpireReplayCacheWorker.cs:32 | what follows the last separator: a suffix of the path with no separator in it |
| Paths.FileNameOfCombine | osu.Server.ReplayStore/ExpireReplayCacheWorker.cs:30-32 | an enumerated directory's name is the name it was created with |
| Paths.FormatLength | osu.Server.ReplayCache/Services/LocalReplayStorage.cs:50-53 | the result is the template's length plus `|arg| - 3` characters for each `{0}` replaced |
| Paths.FormatInjective | osu.Server.ReplayCache/Services/LocalReplayStorage.cs:50-53 | a template holding `{0}` maps distinct ruleset names to distinct directories |
| ReplayPaths.RootDirectory | osu.Server.ReplayCache/Services/LocalReplayStorage.cs:50-53 | solo keys use the base directory; legacy keys use the template formatted with the ruleset's name, which fails for an invalid id |
| ReplayPaths.ScoreFileName | osu.Server.ReplayCache/Services/LocalReplayStorage.cs:55-56 | a plain file name that parses back to the score id |
| ReplayPaths.ScoreFileNameInjective | osu.Server.ReplayCache/Services/LocalReplayStorage.cs:55-56 | distinct score ids have distinct file names |
| ReplayPaths.LegacyRootsDistinct | osu.Server.ReplayCache/Services/LocalReplayStorage.cs:50-53 | distinct rulesets get distinct legacy directories |
| ReplayPaths.KeysIsolated | osu.Server.ReplayCache/Services/LocalReplayStorage.cs:50-56 | in a well-separated layout, distinct keys resolve to distinct files |
| Dates.DaysInMonth | osu.Server.ReplayStore/ExpireReplayCacheWorker.cs:43-44 | 28 to 31 days, following the Gregorian leap rule |
| Dates.Format | osu.Server.ReplayStore/Services/FileReplayCache.cs:67 | six digits: day, month and the year modulo 100 |
| Dates.FourDigitYear | osu.Server.ReplayStore/ExpireReplayCacheWorker.cs:43-44 | two-digit years map into 1950-2049 |
| Dates.Parse | osu.Server.ReplayStore/ExpireReplayCacheWorker.cs:43-44 | exactly six digits naming an existing day; anything else is a format error |
| Dates.ParseFormat | osu.Server.ReplayStore/ExpireReplayCacheWorker.cs:43-44 | a bucket named for a day in the two-digit window parses back to that day |
| Dates.FormatParse | osu.Server.ReplayStore/ExpireReplayCacheWorker.cs:43-44 | whatever parses is exactly the name of the day it parses to |
| Dates.ParseIff | osu.Server.ReplayStore/ExpireReplayCacheWorker.cs:43-44 | a name parses to a day exactly when it is that day's name and the day is in the window |
| Dates.DayNumberMonotone | osu.Server.ReplayStore/ExpireReplayCacheWorker.cs:34 | an earlier day has a smaller day number, so `today - date` follows the calendar |
| LocalStorage.WrittenReadsBack | osu.Server.ReplayCache/Services/LocalReplayStorage.cs:21-27 | after a store, the file holds exactly the new bytes if and only if no longer old file was there; otherwise the old tail survives |
| LocalStorage.WrittenNothing | osu.Server.ReplayCache/Services/LocalReplayStorage.cs:21-27 | storing an exhausted stream creates an empty file, or leaves an existing file unchanged |
| LocalStorage.LocalReplayStorage.constructor | osu.Server.ReplayCache/Services/LocalReplayStorage.cs:15-19 | the configured directories and the initial disk |
| LocalStorage.LocalReplayStorage.StoreReplay | osu.Server.ReplayCache/Services/LocalReplayStorage.cs:21-27 | invalid ruleset or missing directory: an error and no change; otherwise the file is the old one overwritten from 0 with the stream's remaining bytes |
| LocalStorage.LocalReplayStorage.GetReplayStream | osu.Server.ReplayCache/Services/LocalReplayStorage.cs:29-40 | a fresh stream at 0 holding the whole file; a missing directory or file is an error; nothing changes |
| LocalStorage.LocalReplayStorage.DeleteReplay | osu.Server.ReplayCache/Services/LocalReplayStorage.cs:42-48 | removes the key's file, and is silent when the file is absent, even when its directory is missing too (`File.Delete` on Unix); only an invalid legacy ruleset is an error |
| LocalStorage.PathShape | osu.Server.ReplayCache/Services/LocalReplayStorage.cs:50-56 | the path is the root directory combined with the score id, and solo paths ignore the ruleset |
| LocalStorage.OtherKeysUnchanged | osu.Server.ReplayCache/Services/LocalReplayStorage.cs:21-27 | storing one key leaves every other key's file as it was |
| LocalStorage.DeleteIdempotent | osu.Server.ReplayCache/Services/LocalReplayStorage.cs:42-48 | deleting twice is deleting once; deleting an absent file changes nothing |
| FileCache.IndexOf | osu.Server.ReplayStore/Services/FileReplayCache.cs:75 | the first dated directory with the name, or none |
| FileCache.FirstHolder | osu.Server.ReplayStore/Services/FileReplayCache.cs:34-40 | the first dated directory, in enumeration order, that holds the score's file |
| FileCache.WithDirectory | osu.Server.ReplayStore/Services/FileReplayCache.cs:73-76 | afterwards today's directory exists; the existing directories are kept unchanged and in order, and a directory is added exactly when it was missing, empty and enumerated last |
| FileCache.FileReplayCache.constructor | osu.Server.ReplayStore/Services/FileReplayCache.cs:15-19 | the configured directories over the given disk |
| FileCache.FileReplayCache.Add | osu.Server.ReplayStore/Services/FileReplayCache.cs:21-26 | writes the whole bytes to root/today/score, creating the directory if it is missing; an invalid legacy ruleset fails and changes nothing |
| FileCache.FileReplayCache.FindReplayData | osu.Server.ReplayStore/Services/FileReplayCache.cs:28-43 | the contents of the first copy found; none if there is no copy; a missing root is an error |
| FileCache.FileReplayCache.Remove | osu.Server.ReplayStore/Services/FileReplayCache.cs:45-63 | deletes the first copy found and no other; a missing root is an error |
| FileCache.AddThenFind | osu.Server.ReplayStore/Services/FileReplayCache.cs:21-43 | after an upload, a lookup returns it when no other dated directory holds a copy |
| FileCache.AddedFrame | osu.Server.ReplayStore/Services/FileReplayCache.cs:65-79 | an upload keeps directory names distinct and touches only today's directory |
| FileCache.FindDependsOnOrder | osu.Server.ReplayStore/Services/FileReplayCache.cs:34-40 | with two copies, the answer depends on the enumeration order |
| FileCache.HolderCountPositive | osu.Server.ReplayStore/Services/FileReplayCache.cs:34-40 | a lookup finds a copy exactly when some directory holds one |
| FileCache.RemoveFirstDeletesOne | osu.Server.ReplayStore/Services/FileReplayCache.cs:51-59 | a removal lowers the number of copies by exactly one, or changes nothing when there is none |
| FileCache.RemoveFirstFrame | osu.Server.ReplayStore/Services/FileReplayCache.cs:51-59 | a removal keeps every directory's name and every other file |
| FileCache.RemoveLeavesLaterCopies | osu.Server.ReplayStore/Services/FileReplayCache.cs:51-59 | with two or more copies, a lookup after a removal still finds one |
| ExpireWorker.CacheFoldersCorrected | osu.Server.ReplayStore/ExpireReplayCacheWorker.cs:46-52 | every root the cache can write to is in the list |
| ExpireWorker.SweepFolder | osu.Server.ReplayStore/ExpireReplayCacheWorker.cs:30-39 | the root becomes the sweep of its buckets, and the error is the first unparsable name |
| ExpireWorker.RemoveExpiredDirectories | osu.Server.ReplayStore/ExpireReplayCacheWorker.cs:26-41 | the roots become the sweep over the folders, which stops at the first exception |
| ExpireWorker.Execute | osu.Server.ReplayStore/ExpireReplayCacheWorker.cs:17-24 | one sweep per hour, on each given day, over the corrected roots, until an exception ends the loop |
| ExpireWorker.SweepKeepsOnlyExisting | osu.Server.ReplayStore/ExpireReplayCacheWorker.cs:30-39 | a sweep only deletes: every kept bucket was there before |
| ExpireWorker.SweepDeletesOnlyExpired | osu.Server.ReplayStore/ExpireReplayCacheWorker.cs:34-37 | every deleted bucket was expired |
| ExpireWorker.SweepFailsIff | osu.Server.ReplayStore/ExpireReplayCacheWorker.cs:43-44 | a sweep raises exactly when some bucket's name is not a date |
| ExpireWorker.SweepComplete | osu.Server.ReplayStore/ExpireReplayCacheWorker.cs:30-39 | a sweep that raises nothing leaves exactly the buckets within retention |
| ExpireWorker.SweepKeepsOrder | osu.Server.ReplayStore/ExpireReplayCacheWorker.cs:30-39 | a sweep that raises nothing leaves the root filtered to the buckets within retention, in their enumeration order |
| ExpireWorker.SweepBucketsClean | osu.Server.ReplayStore/ExpireReplayCacheWorker.cs:34-35 | a root whose buckets are all within retention is left as it was |
| ExpireWorker.SweepBucketsIdempotent | osu.Server.ReplayStore/ExpireReplayCacheWorker.cs:30-39 | a second sweep on the same day deletes nothing more |
| ExpireWorker.TodayNeverDeleted | osu.Server.ReplayStore/ExpireReplayCacheWorker.cs:34 | today's bucket survives any non-negative retention |
| ExpireWorker.ExpiryFollowsAge | osu.Server.ReplayStore/ExpireReplayCacheWorker.cs:34 | when a bucket is expired, every older bucket is expired too |
| ExpireWorker.SweepRootsFrame | osu.Server.ReplayStore/ExpireReplayCacheWorker.cs:28-40 | roots are never deleted, and roots that are not swept are left as they were |
| ExpireWorker.SweepRootsClean | osu.Server.ReplayStore/ExpireReplayCacheWorker.cs:28-40 | after a sweep that raises nothing, every swept root exists and holds only buckets within retention |
| ExpireWorker.SweepRootsOfClean | osu.Server.ReplayStore/ExpireReplayCacheWorker.cs:28-40 | sweeping roots that are already clean changes nothing |
| ExpireWorker.SweepRootsIdempotent | osu.Server.ReplayStore/ExpireReplayCacheWorker.cs:28-40 | a second sweep on the same day changes nothing and raises nothing |
| ExpireWorker.RepeatedSweepSameDay | osu.Server.ReplayStore/ExpireReplayCacheWorker.cs:19-23 | two hourly runs on one day leave what one run leaves |
| ExpireWorker.LegacyFruitsCacheNeverSwept | osu.Server.ReplayStore/ExpireReplayCacheWorker.cs:46-52 | as written, the "fruits" root that the cache writes to is not in the list, so a sweep leaves it untouched |
| ExpireWorker.SweepStopsAtMissing | osu.Server.ReplayStore/ExpireReplayCacheWorker.cs:28-30 | a missing root raises, and the roots after it are not swept |
| ExpireWorker.CatchRootMissingStopsSweep | osu.Server.ReplayStore/ExpireReplayCacheWorker.cs:46-52 | as written, a missing "catch" root raises, before the mania root is swept |
| ExpireWorker.CatchRootMissingEndsWorker | osu.Server.ReplayStore/ExpireReplayCacheWorker.cs:17-24 | as written, with no "catch" root the hourly loop's result is that of its first sweep, which raises: the worker stops and no root is swept on any later day |
| ExpireWorker.CorrectedSweepCoversCache | osu.Server.ReplayStore/ExpireReplayCacheWorker.cs:46-52 | with the corrected roots, a sweep that raises nothing leaves every cache root the service writes holding only buckets within retention |
| DistributedCache.Cache.constructor | osu.Server.ReplayCache/ReplayCacheController.cs:23 | the cache starts with the given entries |
| DistributedCache.Cache.Get | osu.Server.ReplayCache/ReplayCacheController.cs:141 | the bytes under the key until the entry expires, otherwise none |
| DistributedCache.Cache.Set | osu.Server.ReplayCache/ReplayCacheController.cs:60-66 | replaces the entry, with an expiry of one day from now |
| DistributedCache.Cache.Remove | osu.Server.ReplayCache/ReplayCacheController.cs:225 | removes the key, and is silent when it is absent |
| DistributedCache.SetThenGet | osu.Server.ReplayCache/ReplayCacheController.cs:60-66 | a set entry reads back unchanged for one day, and not after |
| DistributedCache.OtherKeysUnaffected | osu.Server.ReplayCache/ReplayCacheController.cs:60-66 | setting or removing one key leaves every other key as it was |
| DistributedCache.RemoveThenGet | osu.Server.ReplayCache/ReplayCacheController.cs:225 | after a removal, nothing is read under the key |
| DistributedCache.ExpiryIsFinal | osu.Server.ReplayCache/ReplayCacheController.cs:60-66 | once expired, an entry stays expired |
| Requests.AsUnsigned | osu.Server.ReplayCache/ReplayCacheController.cs:180 | `(uint)` keeps a non-negative beatmap id and wraps a negative one by 2^32 |
| Requests.ReplayFileNameShape | osu.Server.ReplayCache/ReplayCacheController.cs:281-288 | the name exists exactly for a valid ruleset, starts "replay-" or "solo-replay-" followed by the ruleset name, and ends ".osr" |
| Requests.CacheKeyInjective | osu.Server.ReplayCache/ReplayCacheController.cs:290-293 | two requests share a cache entry exactly when they name the same score of the same kind, and for legacy scores the same ruleset |
| Requests.LegacyReplayBytesParse | osu.Server.ReplayCache/ReplayCacheController.cs:260-279 | a built legacy replay reads back as the frames, the score's statistics and the rows that were queried |
| Requests.LegacyReplayFromRows | osu.Server.ReplayCache/Helpers/LegacyReplayHelper.cs:12-37 | the served replay's version is the replay table's version for the score, or 20151228 when the table has no row; its statistics are the high-score row's counts, score, combo, perfect flag and mods; checksum, name, frames and id come from the rows read |
| Requests.CreateLegacyReplayWithHeaders | osu.Server.ReplayCache/ReplayCacheController.cs:260-279 | an invalid ruleset, a missing user, a missing beatmap or an oversized field is an error; otherwise a fresh stream at 0 holding the replay |
| CacheController.ReplayCacheController.constructor | osu.Server.ReplayCache/ReplayCacheController.cs:25-29 | the controller over the given storage and cache |
| CacheController.ReplayCacheController.PutReplay | osu.Server.ReplayCache/ReplayCacheController.cs:40-70 | unknown score: 404 and no change; missing directory: raises; otherwise 204, storage receives the exhausted stream (no bytes), and the cache holds the upload for a day |
| CacheController.ReplayCacheController.PutReplayCorrected | osu.Server.ReplayCache/ReplayCacheController.cs:51-58 | as `PutReplay`, but storage receives the whole upload |
| CacheController.ReplayCacheController.PutLegacyReplay | osu.Server.ReplayCache/ReplayCacheController.cs:81-118 | invalid ruleset raises; unknown score is 404; storage is written before the header is built, so a header failure raises with storage written; on success the cache holds the header-wrapped replay for a day |
| CacheController.ReplayCacheController.GetReplay | osu.Server.ReplayCache/ReplayCacheController.cs:130-157 | the response is `SoloDownload` of the current state, and nothing changes |
| CacheController.ReplayCacheController.GetLegacyReplay | osu.Server.ReplayCache/ReplayCacheController.cs:169-204 | the response is `LegacyDownload` of the current state, and nothing changes |
| CacheController.ReplayCacheController.DeleteReplay | osu.Server.ReplayCache/ReplayCacheController.cs:215-230 | no score or no replay: 404; otherwise the file is removed, then the cache entry is removed, and the answer is 204, whether or not the file or its directory existed |
| CacheController.ReplayCacheController.DeleteLegacyReplay | osu.Server.ReplayCache/ReplayCacheController.cs:241-258 | the same for legacy scores: an invalid ruleset raises, no score or no replay is 404, and otherwise the file and the cache entry are removed with 204, even when the ruleset's directory is missing |
| CacheController.DownloadWithinDayIsUpload | osu.Server.ReplayCache/ReplayCacheController.cs:40-70 | within a day of an upload, a download is a cache hit ("1") returning exactly the upload |
| CacheController.LegacyDownloadWithinDayIsUpload | osu.Server.ReplayCache/ReplayCacheController.cs:102-114 | within a day of a legacy upload, a download is served from the cache and is the upload wrapped in the legacy header |
| CacheController.UploadLostAfterExpiry | osu.Server.ReplayCache/ReplayCacheController.cs:51-58 | as written, with local-disk storage, after the cache entry expires, a new score's non-empty upload downloads as an empty file from storage |
| CacheController.UploadKeptAfterExpiry | osu.Server.ReplayCache/ReplayCacheController.cs:51-58 | with the corrected upload, after expiry the download from storage is exactly the upload |
| CacheController.DownloadAfterDeleteRaises | osu.Server.ReplayCache/ReplayCacheController.cs:215-230 | after a delete, a download of a score still marked as having a replay raises file-not-found instead of answering 404 |
| StoreController.ReplayStoreController.constructor | osu.Server.ReplayStore/ReplayStoreController.cs:24-28 | the controller over the given storage and file cache |
| StoreController.ReplayStoreController.PutReplay | osu.Server.ReplayStore/ReplayStoreController.cs:39-63 | unknown score: 404; missing directory: raises; otherwise storage is overwritten from 0 with the whole upload, and today's cache bucket holds the upload |
| StoreController.ReplayStoreController.PutLegacyReplay | osu.Server.ReplayStore/ReplayStoreController.cs:74-117 | storage receives the upload before the header is built; the cache gets the header-wrapped replay, or stays unchanged when the header fails |
| StoreController.ReplayStoreController.GetReplay | osu.Server.ReplayStore/ReplayStoreController.cs:129-159 | the response is `StoreSoloDownload` of the current state (a missing cache root raises), and nothing changes |
| StoreController.ReplayStoreController.GetLegacyReplay | osu.Server.ReplayStore/ReplayStoreController.cs:171-214 | the response is `StoreLegacyDownload` of the current state, and nothing changes |
| StoreController.ReplayStoreController.DeleteReplay | osu.Server.ReplayStore/ReplayStoreController.cs:225-243 | no score or no replay: 404; otherwise the stored file is removed (silently when it or its directory is missing), then the first cached copy; only a missing cache root raises |
| StoreController.ReplayStoreController.DeleteLegacyReplay | osu.Server.ReplayStore/ReplayStoreController.cs:254-274 | the same for legacy scores: an invalid ruleset raises, no score or no replay is 404, and otherwise the stored file and then the first copy in the ruleset's cache root are removed; only a missing cache root raises |
| StoreController.UploadKeptAfterCacheExpiry | osu.Server.ReplayStore/ReplayStoreController.cs:53-59 | once no cached copy remains, a new score's download from storage is exactly the upload |
| StoreController.DownloadAfterUploadIsUpload | osu.Server.ReplayStore/ReplayStoreController.cs:53-59 | right after an upload, a download is a cache hit returning exactly the upload, when no other dated directory holds a copy |
| StoreController.LegacyDownloadAfterUploadIsUpload | osu.Server.ReplayStore/ReplayStoreController.cs:100-111 | right after a legacy upload, a download is served from the ruleset's cache root and is the upload wrapped in the legacy header |

## Left out

- S3 storage (`S3ReplayStorage`) is not part of this model. Storage is the local-disk implementation only.
- The ReplayStore's own storage and helper classes (its `LocalReplayStorage`, `LegacyReplayHelper` and `LegacyRulesetHelper`) are not part of this model. ReplayStore is modelled with the ReplayCache versions of them.
- The `SerializationWriter` of the osu! framework is not part of this model. Its encodings are taken to be those of .NET's `BinaryWriter`: little-endian integers, 7-bit string lengths, a marker byte before strings, and a 32-bit length before byte arrays.
- MD5 is a parameter, a function from text to lowercase hex text, because digest internals are out of scope.
- Database access, asynchrony, `using`/disposal, DogStatsd metrics, logging, `Program` and `AppSettings` are left out. The connection is a value; configured paths and the retention days are parameters.
- Clocks are parameters. The distributed cache's time is a tick count. `DateTime.Today` is a `Date`. The hour-long delay is a sequence of days, one sweep each. Time-zone conversion of the score date is left out, and the date is written as its tick count.
- The distributed cache's own eviction, sliding expiry and network failures are left out. An entry is live while the time is before its expiry.
- Directory enumeration order is part of the state (the order of a root's buckets). The file system's real order is not modelled.
- `Path.Combine` rooted-path rules and `string.Format` escapes (`{{`, `}}`, indices other than `{0}`) are left out. Templates hold plain `{0}` placeholders.
- Concurrency between requests and the worker is left out. Each action runs alone.
- `Directory.Delete`, reads and writes cannot fail in the model except where the code's own exceptions are modelled (missing directory, missing file, bad date, invalid ruleset).
- ExpireWorker.TodayNeverDeleted: holds only for days in 1950–2049, the default two-digit-year window. From 2050 on, a new bucket's name parses as a 1950s date and the bucket is deleted at once.
- ExpireWorker.Execute: is stated over the corrected folder list. `CacheFolders` models the list as written, and its consequences are proved separately.
- CacheController.ReplayCacheController.PutLegacyReplay: has the same exhausted-stream defect as `PutReplay`. It is modelled as written, and only the solo upload has a corrected version.
- Numbers.Decimal: the integer text in file names, cache keys and the score checksum is the invariant-culture form with "-" as the minus sign. The source's string interpolation uses the current culture, which differs only for negative values under a culture with another minus sign; culture settings are not modelled.

## Findings

| source | as written | input that shows it | evidently intended | confidence | as-written member | corrected member |
|---|---|---|---|---|---|---|
| osu.Server.ReplayCache/ReplayCacheController.cs:51-58 | the upload stream is copied into a buffer and then passed to storage without a seek, so with local-disk storage (`LocalReplayStorage`, the only storage modelled) zero bytes are copied | with local-disk storage, PUT a non-empty replay for a score with no stored file, then GET it more than one day later: the download is an empty file | seek the stream to 0 before storing, as the ReplayStore upload does | high (not executed) | CacheController.UploadLostAfterExpiry | CacheController.UploadKeptAfterExpiry |
| osu.Server.ReplayStore/ExpireReplayCacheWorker.cs:50-51 | the legacy cache roots are formatted with "catch", while the cache writes under the ruleset's name "fruits" | a catch-the-beat upload goes to the "fruits" root, and no sweep ever lists it; with no "catch" root, the first sweep raises before reaching the mania root (`CatchRootMissingStopsSweep`) and the exception ends the hourly loop, so nothing is swept afterwards (`CatchRootMissingEndsWorker`) | format the roots with the names the cache uses (osu, taiko, fruits, mania); since a root that has not been created yet still raises under that list (`ExpireWorker.SweepStopsAtMissing`), missing roots must also be skipped or created | high (not executed) | ExpireWorker.CatchRootMissingStopsSweep, ExpireWorker.CatchRootMissingEndsWorker | ExpireWorker.CorrectedSweepCoversCache |
