/** `LocalReplayStorage`: the durable tier kept as files on a local disk,
    one file per key at `<root directory>/<score id>`. The disk is the map
    from file paths to contents plus the set of existing directories. */
module LocalStorage {
  import opened Wrappers
  import opened Numbers
  import opened Errors
  import opened Paths
  import opened Streams
  import opened ReplayPaths

  /** `getPathToReplay`: the key's file below its root directory. */
  function PathToReplay(baseDirectory: string, legacyTemplate: string, scoreId: int, rulesetId: int, legacy: bool): Result<string, Error> {
    var directory :- RootDirectory(baseDirectory, legacyTemplate, rulesetId, legacy);
    Success(Combine(directory, ScoreFileName(scoreId)))
  }

  /** The files after `File.OpenWrite(path)` and a copy of `bytes` into it:
      the file is created if missing and is NOT truncated, so the bytes
      replace its start and any longer old tail stays. */
  function Written(files: map<string, seq<byte>>, path: string, bytes: seq<byte>): map<string, seq<byte>> {
    files[path := OverwriteAt(if path in files then files[path] else [], 0, bytes)]
  }

  /** What `GetReplayStreamAsync` yields for a key, on the disk's state:
      the file's bytes, or the exception a missing directory or file raises. */
  function StoredReplay(files: map<string, seq<byte>>, directories: set<string>, baseDirectory: string, legacyTemplate: string,
                        scoreId: int, rulesetId: int, legacy: bool): Result<seq<byte>, Error> {
    var directory :- RootDirectory(baseDirectory, legacyTemplate, rulesetId, legacy);
    var path := Combine(directory, ScoreFileName(scoreId));
    if directory !in directories then Failure(DirectoryNotFound(directory))
    else if path !in files then Failure(FileNotFound(path))
    else Success(files[path])
  }

  /** What a later read of the key returns after a store: exactly the new
      bytes unless an older, longer file was there, whose tail then survives. */
  lemma WrittenReadsBack(files: map<string, seq<byte>>, path: string, bytes: seq<byte>)
    ensures Written(files, path, bytes)[path] == bytes <==> path !in files || |files[path]| <= |bytes|
    ensures path in files && |bytes| < |files[path]| ==> Written(files, path, bytes)[path] == bytes + files[path][|bytes|..]
  {
    var prev := if path in files then files[path] else [];
    OverwriteFromStart(prev, bytes);
  }

  /** Storing nothing creates an empty file if there was none and otherwise leaves the file as it was. */
  lemma WrittenNothing(files: map<string, seq<byte>>, path: string)
    ensures Written(files, path, []) == if path in files then files else files[path := []]
  {
    if path in files {
      OverwriteNothing(files[path], 0);
    }
  }

  class LocalReplayStorage {
    const baseDirectory: string
    const legacyBaseDirectory: string
    /** The contents of every existing file, by path. */
    var files: map<string, seq<byte>>
    /** The existing directories; the store never creates one. */
    var directories: set<string>

    constructor(directory: string, legacyDirectory: string, existingFiles: map<string, seq<byte>>, existingDirectories: set<string>)
      ensures baseDirectory == directory && legacyBaseDirectory == legacyDirectory
      ensures files == existingFiles && directories == existingDirectories
    {
      baseDirectory := directory;
      legacyBaseDirectory := legacyDirectory;
      files := existingFiles;
      directories := existingDirectories;
    }

    function Path(scoreId: int, rulesetId: int, legacy: bool): Result<string, Error> {
      PathToReplay(baseDirectory, legacyBaseDirectory, scoreId, rulesetId, legacy)
    }

    function Directory(rulesetId: int, legacy: bool): Result<string, Error> {
      RootDirectory(baseDirectory, legacyBaseDirectory, rulesetId, legacy)
    }

    /** The bytes a read of the key returns in the current state. */
    function Stored(scoreId: int, rulesetId: int, legacy: bool): Result<seq<byte>, Error>
      reads this
    {
      StoredReplay(files, directories, baseDirectory, legacyBaseDirectory, scoreId, rulesetId, legacy)
    }

    /** `StoreReplayAsync`: copies what remains of `replayData` (from its
        current position) into the key's file opened without truncation.
        A missing directory is a `DirectoryNotFoundException`. */
    method StoreReplay(scoreId: i64, rulesetId: u16, legacy: bool, replayData: MemoryStream) returns (status: Result<(), Error>)
      requires replayData.Valid()
      modifies this, replayData
      ensures replayData.Valid() && replayData.data == old(replayData.data)
      ensures directories == old(directories)
      ensures Directory(rulesetId, legacy).Failure? ==>
        status == Failure(Directory(rulesetId, legacy).error) && files == old(files) && replayData.position == old(replayData.position)
      ensures Directory(rulesetId, legacy).Success? && Directory(rulesetId, legacy).value !in directories ==>
        status == Failure(DirectoryNotFound(Directory(rulesetId, legacy).value)) && files == old(files)
        && replayData.position == old(replayData.position)
      ensures Directory(rulesetId, legacy).Success? && Directory(rulesetId, legacy).value in directories ==>
        status == Success(()) && replayData.position == |replayData.data|
        && files == Written(old(files), Path(scoreId, rulesetId, legacy).value, old(replayData.data)[old(replayData.position)..])
    {
      var path :- Path(scoreId, rulesetId, legacy);
      var directory := Directory(rulesetId, legacy).value;
      if directory !in directories {
        return Failure(DirectoryNotFound(directory));
      }
      // File.OpenWrite: open (or create) without truncating, positioned at 0.
      var fileStream := new MemoryStream.FromBytes(if path in files then files[path] else []);
      replayData.CopyTo(fileStream);
      files := files[path := fileStream.data];
      status := Success(());
    }

    /** `GetReplayStreamAsync`: a fresh memory stream holding the whole file,
        rewound to 0. A missing file or directory is an exception. */
    method GetReplayStream(scoreId: i64, rulesetId: u16, legacy: bool) returns (r: Result<MemoryStream, Error>)
      ensures Directory(rulesetId, legacy).Failure? ==> r == Failure(Directory(rulesetId, legacy).error)
      ensures Directory(rulesetId, legacy).Success? && Directory(rulesetId, legacy).value !in directories ==>
        r == Failure(DirectoryNotFound(Directory(rulesetId, legacy).value))
      ensures (Directory(rulesetId, legacy).Success? && Directory(rulesetId, legacy).value in directories
               && Path(scoreId, rulesetId, legacy).value !in files) ==>
        r == Failure(FileNotFound(Path(scoreId, rulesetId, legacy).value))
      ensures r.Success? <==> (Directory(rulesetId, legacy).Success? && Directory(rulesetId, legacy).value in directories
                               && Path(scoreId, rulesetId, legacy).value in files)
      ensures r.Success? ==> (fresh(r.value) && r.value.Valid() && r.value.position == 0
                              && r.value.data == files[Path(scoreId, rulesetId, legacy).value])
      ensures r.Failure? ==> Stored(scoreId, rulesetId, legacy) == Failure(r.error)
      ensures r.Success? ==> Stored(scoreId, rulesetId, legacy) == Success(r.value.data)
    {
      var path :- Path(scoreId, rulesetId, legacy);
      var directory := Directory(rulesetId, legacy).value;
      if directory !in directories {
        return Failure(DirectoryNotFound(directory));
      }
      if path !in files {
        return Failure(FileNotFound(path));
      }
      var memoryStream := new MemoryStream.Empty();
      var fileStream := new MemoryStream.FromBytes(files[path]);
      OverwriteAtEnd([], files[path]);
      fileStream.CopyTo(memoryStream);
      memoryStream.Rewind();
      r := Success(memoryStream);
    }

    /** `DeleteReplayAsync`: `File.Delete` removes the file. On Unix it is
        silent when the file is already gone, even when its directory is
        missing too; only an invalid legacy ruleset is an exception. */
    method DeleteReplay(scoreId: i64, rulesetId: u16, legacy: bool) returns (status: Result<(), Error>)
      modifies this
      ensures directories == old(directories)
      ensures Directory(rulesetId, legacy).Failure? ==> status == Failure(Directory(rulesetId, legacy).error) && files == old(files)
      ensures Directory(rulesetId, legacy).Success? ==>
        status == Success(()) && files == old(files) - {Path(scoreId, rulesetId, legacy).value}
    {
      var path :- Path(scoreId, rulesetId, legacy);
      files := files - {path};
      status := Success(());
    }
  }

  /** The shape of a key's path: solo keys ignore the ruleset, legacy keys
      fail exactly for an invalid ruleset, and the file's name is the score id. */
  lemma PathShape(baseDirectory: string, legacyTemplate: string, scoreId: int, rulesetId: int, otherRuleset: int, legacy: bool)
    ensures !legacy ==> (PathToReplay(baseDirectory, legacyTemplate, scoreId, rulesetId, false)
                         == PathToReplay(baseDirectory, legacyTemplate, scoreId, otherRuleset, false))
    ensures legacy ==> (PathToReplay(baseDirectory, legacyTemplate, scoreId, rulesetId, true).Success?
                        <==> Rulesets.IsValidRulesetId(rulesetId))
    ensures var r := RootDirectory(baseDirectory, legacyTemplate, rulesetId, legacy);
            r.Success? && r.value != "" ==>
              FileName(PathToReplay(baseDirectory, legacyTemplate, scoreId, rulesetId, legacy).value) == Decimal(scoreId)
  {
    var r := RootDirectory(baseDirectory, legacyTemplate, rulesetId, legacy);
    if r.Success? && r.value != "" {
      FileNameOfCombine(r.value, ScoreFileName(scoreId));
    }
  }

  /** A store or delete under one key leaves the file of every other key as it was. */
  lemma OtherKeysUnchanged(baseDirectory: string, legacyTemplate: string, files: map<string, seq<byte>>, bytes: seq<byte>,
                           s1: int, r1: int, l1: bool, s2: int, r2: int, l2: bool)
    requires WellSeparated(baseDirectory, legacyTemplate)
    requires PathToReplay(baseDirectory, legacyTemplate, s1, r1, l1).Success?
    requires PathToReplay(baseDirectory, legacyTemplate, s2, r2, l2).Success?
    requires !SameKey(s1, r1, l1, s2, r2, l2)
    ensures var p1 := PathToReplay(baseDirectory, legacyTemplate, s1, r1, l1).value;
            var p2 := PathToReplay(baseDirectory, legacyTemplate, s2, r2, l2).value;
            (p2 in Written(files, p1, bytes) <==> p2 in files)
            && (p2 in files ==> Written(files, p1, bytes)[p2] == files[p2])
            && (p2 in files - {p1} <==> p2 in files)
  {
    KeysIsolated(baseDirectory, legacyTemplate, s1, r1, l1, s2, r2, l2);
  }

  /** Deleting twice is deleting once. */
  lemma DeleteIdempotent(files: map<string, seq<byte>>, path: string)
    ensures (files - {path}) - {path} == files - {path}
    ensures path !in files ==> files - {path} == files
  {
  }
}
