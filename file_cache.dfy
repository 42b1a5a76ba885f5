/** `FileReplayCache`: the hot cache of ReplayStore. Each root directory (the
    solo cache path, or the legacy template formatted with a ruleset name)
    holds dated sub-directories named "ddMMyy", each holding files named by
    score id. Uploads go into today's directory; lookups and removals scan
    the dated directories in the order the file system enumerates them. */
module FileCache {
  import opened Wrappers
  import opened Numbers
  import opened Errors
  import opened Dates
  import opened ReplayPaths

  /** A dated cache directory: its name and its files by name. */
  datatype Bucket = Bucket(name: string, files: map<string, seq<byte>>)

  predicate DistinctNames(buckets: seq<Bucket>) {
    forall i, j | 0 <= i < j < |buckets| :: buckets[i].name != buckets[j].name
  }

  /** The dated directories of a root, in enumeration order; none if the root does not exist. */
  function BucketsOf(roots: map<string, seq<Bucket>>, root: string): seq<Bucket> {
    if root in roots then roots[root] else []
  }

  /** The position of the directory called `dirName` (`Directory.Exists`). */
  function IndexOf(buckets: seq<Bucket>, dirName: string): (r: Option<nat>)
    ensures r.Some? ==> r.value < |buckets| && buckets[r.value].name == dirName
    ensures r.Some? ==> forall j | 0 <= j < r.value :: buckets[j].name != dirName
    ensures r.None? ==> forall j | 0 <= j < |buckets| :: buckets[j].name != dirName
  {
    if buckets == [] then None
    else if buckets[0].name == dirName then Some(0)
    else
      var i :- IndexOf(buckets[1..], dirName);
      Some(i + 1)
  }

  /** The position of the first directory, in enumeration order, holding a file called `name`. */
  function FirstHolder(buckets: seq<Bucket>, name: string): (r: Option<nat>)
    ensures r.Some? ==> r.value < |buckets| && name in buckets[r.value].files
    ensures r.Some? ==> forall j | 0 <= j < r.value :: name !in buckets[j].files
    ensures r.None? ==> forall j | 0 <= j < |buckets| :: name !in buckets[j].files
  {
    if buckets == [] then None
    else if name in buckets[0].files then Some(0)
    else
      var i :- FirstHolder(buckets[1..], name);
      Some(i + 1)
  }

  /** What `FindReplayDataAsync` returns: the contents of the first copy found. */
  function Lookup(buckets: seq<Bucket>, name: string): Option<seq<byte>> {
    var i :- FirstHolder(buckets, name);
    Some(buckets[i].files[name])
  }

  /** The directories after `RemoveAsync`: the first copy found is deleted, no other. */
  function RemoveFirst(buckets: seq<Bucket>, name: string): seq<Bucket> {
    match FirstHolder(buckets, name)
    case None => buckets
    case Some(i) => buckets[i := Bucket(buckets[i].name, buckets[i].files - {name})]
  }

  /** The directories after `getReplayDirectory`: `dirName` is created if
      missing, empty and enumerated after the existing ones, which are kept
      as they are and in their order. */
  function WithDirectory(buckets: seq<Bucket>, dirName: string): (r: seq<Bucket>)
    ensures IndexOf(r, dirName).Some?
    ensures |buckets| <= |r| <= |buckets| + 1 && r[..|buckets|] == buckets
    ensures |r| > |buckets| <==> IndexOf(buckets, dirName).None?
    ensures |r| > |buckets| ==> r[|buckets|] == Bucket(dirName, map[])
  {
    if IndexOf(buckets, dirName).Some? then buckets
    else
      var r := buckets + [Bucket(dirName, map[])];
      assert r[|buckets|].name == dirName;
      r
  }

  /** The directories after `AddAsync`: `File.WriteAllBytes` into `dirName`
      replaces the whole file, whatever was there before. */
  function Added(buckets: seq<Bucket>, dirName: string, name: string, data: seq<byte>): seq<Bucket> {
    var created := WithDirectory(buckets, dirName);
    var i := IndexOf(created, dirName).value;
    created[i := Bucket(dirName, created[i].files[name := data])]
  }

  /** How many dated directories hold a copy of `name`. */
  function HolderCount(buckets: seq<Bucket>, name: string): nat {
    if buckets == [] then 0
    else (if name in buckets[0].files then 1 else 0) + HolderCount(buckets[1..], name)
  }

  /** The file system below the cache roots. */
  class CacheDisk {
    /** Each existing root directory and its dated directories in enumeration order. */
    var roots: map<string, seq<Bucket>>

    ghost predicate Valid()
      reads this
    {
      forall root | root in roots :: DistinctNames(roots[root])
    }

    constructor(existing: map<string, seq<Bucket>>)
      requires forall root | root in existing :: DistinctNames(existing[root])
      ensures Valid() && roots == existing
    {
      roots := existing;
    }
  }

  class FileReplayCache {
    const baseDirectory: string
    const legacyBaseDirectory: string
    const disk: CacheDisk

    constructor(directory: string, legacyDirectory: string, disk: CacheDisk)
      ensures baseDirectory == directory && legacyBaseDirectory == legacyDirectory && this.disk == disk
    {
      baseDirectory := directory;
      legacyBaseDirectory := legacyDirectory;
      this.disk := disk;
    }

    function Root(rulesetId: int, legacy: bool): Result<string, Error> {
      RootDirectory(baseDirectory, legacyBaseDirectory, rulesetId, legacy)
    }

    /** `AddAsync`: writes the bytes to `<root>/<today>/<score id>`, creating
        the root and today's directory when they are missing. */
    method Add(scoreId: i64, rulesetId: u16, legacy: bool, replayData: seq<byte>, today: Date) returns (status: Result<(), Error>)
      requires disk.Valid() && IsValid(today)
      modifies disk
      ensures disk.Valid()
      ensures Root(rulesetId, legacy).Failure? ==>
        status == Failure(Root(rulesetId, legacy).error) && disk.roots == old(disk.roots)
      ensures Root(rulesetId, legacy).Success? ==>
        var root := Root(rulesetId, legacy).value;
        status == Success(())
        && disk.roots == old(disk.roots)[root := Added(BucketsOf(old(disk.roots), root), Dates.Format(today), ScoreFileName(scoreId), replayData)]
    {
      var root :- Root(rulesetId, legacy);
      var date := Dates.Format(today);
      var buckets := BucketsOf(disk.roots, root);
      ghost var before := buckets;
      ghost var roots := disk.roots;
      if IndexOf(buckets, date).None? {
        // Directory.CreateDirectory creates the root too.
        buckets := buckets + [Bucket(date, map[])];
        disk.roots := disk.roots[root := buckets];
      }
      assert buckets == WithDirectory(before, date);
      var i := IndexOf(buckets, date).value;
      var name := ScoreFileName(scoreId);
      buckets := buckets[i := Bucket(date, buckets[i].files[name := replayData])];
      assert buckets == Added(before, date, name, replayData);
      AddedFrame(before, date, name, replayData);
      assert disk.roots[root := buckets] == roots[root := buckets];
      disk.roots := disk.roots[root := buckets];
      status := Success(());
    }

    /** `FindReplayDataAsync`: the first dated directory holding the score's
        file wins; a missing root is a `DirectoryNotFoundException`. */
    method FindReplayData(scoreId: i64, rulesetId: u16, legacy: bool) returns (r: Result<Option<seq<byte>>, Error>)
      ensures Root(rulesetId, legacy).Failure? ==> r == Failure(Root(rulesetId, legacy).error)
      ensures Root(rulesetId, legacy).Success? && Root(rulesetId, legacy).value !in disk.roots ==>
        r == Failure(DirectoryNotFound(Root(rulesetId, legacy).value))
      ensures Root(rulesetId, legacy).Success? && Root(rulesetId, legacy).value in disk.roots ==>
        r == Success(Lookup(disk.roots[Root(rulesetId, legacy).value], ScoreFileName(scoreId)))
    {
      var root :- Root(rulesetId, legacy);
      if root !in disk.roots {
        return Failure(DirectoryNotFound(root));
      }
      var buckets := disk.roots[root];
      var name := ScoreFileName(scoreId);
      for i := 0 to |buckets|
        invariant forall j | 0 <= j < i :: name !in buckets[j].files
      {
        if name in buckets[i].files {
          return Success(Some(buckets[i].files[name]));
        }
      }
      return Success(None);
    }

    /** `RemoveAsync`: deletes the first copy found, then stops; an absent key changes nothing. */
    method Remove(scoreId: i64, rulesetId: u16, legacy: bool) returns (status: Result<(), Error>)
      requires disk.Valid()
      modifies disk
      ensures disk.Valid()
      ensures Root(rulesetId, legacy).Failure? ==>
        status == Failure(Root(rulesetId, legacy).error) && disk.roots == old(disk.roots)
      ensures Root(rulesetId, legacy).Success? && Root(rulesetId, legacy).value !in old(disk.roots) ==>
        status == Failure(DirectoryNotFound(Root(rulesetId, legacy).value)) && disk.roots == old(disk.roots)
      ensures Root(rulesetId, legacy).Success? && Root(rulesetId, legacy).value in old(disk.roots) ==>
        var root := Root(rulesetId, legacy).value;
        status == Success(()) && disk.roots == old(disk.roots)[root := RemoveFirst(old(disk.roots)[root], ScoreFileName(scoreId))]
    {
      var root :- Root(rulesetId, legacy);
      if root !in disk.roots {
        return Failure(DirectoryNotFound(root));
      }
      var buckets := disk.roots[root];
      var name := ScoreFileName(scoreId);
      for i := 0 to |buckets|
        invariant forall j | 0 <= j < i :: name !in buckets[j].files
        invariant disk.roots == old(disk.roots)
      {
        if name in buckets[i].files {
          disk.roots := disk.roots[root := buckets[i := Bucket(buckets[i].name, buckets[i].files - {name})]];
          return Success(());
        }
      }
      return Success(());
    }
  }

  /** After an upload, a lookup returns it, provided no directory other than
      today's holds an older copy. */
  lemma AddThenFind(buckets: seq<Bucket>, dirName: string, name: string, data: seq<byte>)
    requires forall j | 0 <= j < |buckets| && buckets[j].name != dirName :: name !in buckets[j].files
    ensures Lookup(Added(buckets, dirName, name, data), name) == Some(data)
  {
    var created := WithDirectory(buckets, dirName);
    var i := IndexOf(created, dirName).value;
    var after := Added(buckets, dirName, name, data);
    assert forall j | 0 <= j < |created| && created[j].name != dirName :: name !in created[j].files;
    assert name in after[i].files;
    assert forall j | 0 <= j < i :: name !in after[j].files;
  }

  /** An upload touches only today's directory, which it may create, and keeps names distinct. */
  lemma AddedFrame(buckets: seq<Bucket>, dirName: string, name: string, data: seq<byte>)
    requires DistinctNames(buckets)
    ensures var after := Added(buckets, dirName, name, data);
            DistinctNames(after)
            && |buckets| <= |after| <= |buckets| + 1
            && (forall j | 0 <= j < |buckets| && buckets[j].name != dirName :: after[j] == buckets[j])
            && (forall j | |buckets| <= j < |after| :: after[j].name == dirName)
  {
  }

  /** The copy returned depends on enumeration order, not on which copy is
      newer: with copies in two dated directories, either can be returned. */
  lemma FindDependsOnOrder()
    ensures var older := Bucket("010126", map["42" := [1]]);
            var newer := Bucket("020126", map["42" := [2]]);
            Lookup([older, newer], "42") == Some([1]) && Lookup([newer, older], "42") == Some([2])
  {
  }

  lemma {:induction false} HolderCountPositive(buckets: seq<Bucket>, name: string)
    ensures HolderCount(buckets, name) > 0 <==> FirstHolder(buckets, name).Some?
  {
    if buckets != [] {
      HolderCountPositive(buckets[1..], name);
    }
  }

  /** A removal deletes exactly one copy when there is one, and nothing otherwise. */
  lemma {:induction false} RemoveFirstDeletesOne(buckets: seq<Bucket>, name: string)
    ensures FirstHolder(buckets, name).Some? ==> HolderCount(RemoveFirst(buckets, name), name) == HolderCount(buckets, name) - 1
    ensures FirstHolder(buckets, name).None? ==> RemoveFirst(buckets, name) == buckets
  {
    if buckets != [] && FirstHolder(buckets, name).Some? {
      var after := RemoveFirst(buckets, name);
      if name in buckets[0].files {
        assert after[1..] == buckets[1..];
      } else {
        RemoveFirstDeletesOne(buckets[1..], name);
        assert after[1..] == RemoveFirst(buckets[1..], name);
      }
    }
  }

  /** Removal changes only the directory of the first copy and never adds or deletes directories. */
  lemma RemoveFirstFrame(buckets: seq<Bucket>, name: string)
    ensures var after := RemoveFirst(buckets, name);
            |after| == |buckets|
            && (forall j | 0 <= j < |buckets| :: after[j].name == buckets[j].name)
            && (forall j | 0 <= j < |buckets| && Some(j) != FirstHolder(buckets, name) :: after[j] == buckets[j])
  {
  }

  /** With copies in two directories, a lookup after a removal still finds one. */
  lemma RemoveLeavesLaterCopies(buckets: seq<Bucket>, name: string)
    requires HolderCount(buckets, name) >= 2
    ensures Lookup(RemoveFirst(buckets, name), name).Some?
  {
    HolderCountPositive(buckets, name);
    RemoveFirstDeletesOne(buckets, name);
    HolderCountPositive(RemoveFirst(buckets, name), name);
  }
}
