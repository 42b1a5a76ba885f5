/** `ExpireReplayCacheWorker`: a background loop that, every hour, walks the
    cache roots and deletes every dated directory older than the retention
    period. A directory name that is not a "ddMMyy" date, or a root that does
    not exist, raises an exception that ends the sweep where it stands and, escaping
    `ExecuteAsync`, the hourly loop with it. */
module ExpireWorker {
  import opened Wrappers
  import opened Errors
  import opened Dates
  import opened Paths
  import opened Rulesets
  import opened FileCache
  import opened ReplayPaths

  /** The state a sweep leaves and the exception that stopped it, if any. */
  datatype Outcome<T> = Outcome(state: T, error: Option<Error>)

  /** The names the worker formats the legacy cache template with. */
  const SWEPT_RULESETS: seq<string> := ["osu", "taiko", "catch", "mania"]

  /** `getCacheFolders` as written: the solo cache path, then the legacy
      template formatted with each name of `SWEPT_RULESETS`. */
  function CacheFolders(cachePath: string, legacyTemplate: string): seq<string> {
    [cachePath,
     Paths.Format(legacyTemplate, SWEPT_RULESETS[0]), Paths.Format(legacyTemplate, SWEPT_RULESETS[1]),
     Paths.Format(legacyTemplate, SWEPT_RULESETS[2]), Paths.Format(legacyTemplate, SWEPT_RULESETS[3])]
  }

  /** The roots the cache writes to: the solo cache path and the legacy
      template formatted with the resolver's ruleset names. */
  function CacheFoldersCorrected(cachePath: string, legacyTemplate: string): (folders: seq<string>)
    ensures forall rulesetId: int, legacy: bool | RootDirectory(cachePath, legacyTemplate, rulesetId, legacy).Success? ::
              RootDirectory(cachePath, legacyTemplate, rulesetId, legacy).value in folders
  {
    [cachePath,
     Paths.Format(legacyTemplate, NAMES[0]), Paths.Format(legacyTemplate, NAMES[1]),
     Paths.Format(legacyTemplate, NAMES[2]), Paths.Format(legacyTemplate, NAMES[3])]
  }

  /** Whether a dated directory is past retention, `(today - date).TotalDays > days`;
      `None` when its name is not a date. */
  function IsExpired(name: string, today: Date, days: int): Option<bool>
    requires IsValid(today)
  {
    var date :- Dates.Parse(name);
    Some(AgeInDays(today, date) > days)
  }

  /** One root's dated directories after the inner loop: expired ones are
      deleted in enumeration order until a name fails to parse. */
  function SweepBuckets(buckets: seq<Bucket>, today: Date, days: int): Outcome<seq<Bucket>>
    requires IsValid(today)
  {
    if buckets == [] then Outcome([], None)
    else match IsExpired(buckets[0].name, today, days)
      case None => Outcome(buckets, Some(BadDateFormat(buckets[0].name)))
      case Some(expired) =>
        var rest := SweepBuckets(buckets[1..], today, days);
        Outcome(if expired then rest.state else [buckets[0]] + rest.state, rest.error)
  }

  /** All roots after `removeExpiredDirectories` over `folders`: each root is
      swept in turn; a missing root or a bad name stops the sweep. */
  function SweepRoots(roots: map<string, seq<Bucket>>, folders: seq<string>, today: Date, days: int): Outcome<map<string, seq<Bucket>>>
    requires IsValid(today)
    decreases |folders|
  {
    if folders == [] then Outcome(roots, None)
    else if folders[0] !in roots then Outcome(roots, Some(DirectoryNotFound(folders[0])))
    else
      var swept := SweepBuckets(roots[folders[0]], today, days);
      var next := roots[folders[0] := swept.state];
      if swept.error.Some? then Outcome(next, swept.error)
      else SweepRoots(next, folders[1..], today, days)
  }

  predicate AllValid(days: seq<Date>) {
    forall i | 0 <= i < |days| :: IsValid(days[i])
  }

  /** The roots after the hourly loop has swept once on each of `todays`, or
      up to the first sweep that raised. */
  function RunSweeps(roots: map<string, seq<Bucket>>, folders: seq<string>, todays: seq<Date>, days: int): Outcome<map<string, seq<Bucket>>>
    requires AllValid(todays)
    decreases |todays|
  {
    if todays == [] then Outcome(roots, None)
    else
      var swept := SweepRoots(roots, folders, todays[0], days);
      if swept.error.Some? then swept
      else RunSweeps(swept.state, folders, todays[1..], days)
  }

  /** The inner loop of `removeExpiredDirectories` over one existing root. */
  method SweepFolder(disk: CacheDisk, folder: string, today: Date, days: int) returns (error: Option<Error>)
    requires IsValid(today) && folder in disk.roots
    modifies disk
    ensures disk.roots == old(disk.roots)[folder := SweepBuckets(old(disk.roots)[folder], today, days).state]
    ensures error == SweepBuckets(old(disk.roots)[folder], today, days).error
  {
    var roots := disk.roots;
    var buckets := roots[folder];
    ghost var target := SweepBuckets(buckets, today, days);
    var kept: seq<Bucket> := [];
    var current := buckets;
    SweepFromStart(buckets, today, days);
    KeepNone(buckets);
    assert roots[folder := buckets] == roots;
    var i := 0;
    while i < |buckets|
      invariant 0 <= i <= |buckets|
      invariant current == kept + buckets[i..]
      invariant disk.roots == roots[folder := current]
      invariant SweepFrom(buckets, i, kept, today, days) == target
    {
      var cacheDate := buckets[i].name;
      var expired := IsExpired(cacheDate, today, days);
      if expired.None? {
        SweepFromStop(buckets, i, kept, today, days);
        return Some(BadDateFormat(cacheDate));
      }
      if !expired.value {
        SweepFromNext(buckets, i, kept, today, days, false);
        KeepOne(kept, buckets, i);
        kept := kept + [buckets[i]];
      } else {
        SweepFromNext(buckets, i, kept, today, days, true);
        // Directory.Delete(cacheFolder, recursive: true)
        current := kept + buckets[i + 1..];
        disk.roots := roots[folder := current];
      }
      i := i + 1;
    }
    KeepAll(kept, buckets);
    return None;
  }

  lemma KeepNone(buckets: seq<Bucket>)
    ensures [] + buckets[0..] == buckets
  {
    assert buckets[0..] == buckets;
  }

  lemma KeepAll(kept: seq<Bucket>, buckets: seq<Bucket>)
    ensures kept + buckets[|buckets|..] == kept
  {
    assert buckets[|buckets|..] == [];
  }

  lemma KeepOne(kept: seq<Bucket>, buckets: seq<Bucket>, i: nat)
    requires i < |buckets|
    ensures (kept + [buckets[i]]) + buckets[i + 1..] == kept + buckets[i..]
  {
    assert buckets[i..] == [buckets[i]] + buckets[i + 1..];
  }

  /** A name that is not a date stops the loop with what is left in place. */
  lemma SweepFromStop(buckets: seq<Bucket>, i: nat, kept: seq<Bucket>, today: Date, days: int)
    requires IsValid(today) && i < |buckets| && IsExpired(buckets[i].name, today, days).None?
    ensures SweepFrom(buckets, i, kept, today, days) == Outcome(kept + buckets[i..], Some(BadDateFormat(buckets[i].name)))
  {
  }

  /** A dated directory is dropped when expired and joins `kept` otherwise. */
  lemma SweepFromNext(buckets: seq<Bucket>, i: nat, kept: seq<Bucket>, today: Date, days: int, expired: bool)
    requires IsValid(today) && i < |buckets| && IsExpired(buckets[i].name, today, days) == Some(expired)
    ensures SweepFrom(buckets, i, kept, today, days) ==
            SweepFrom(buckets, i + 1, if expired then kept else kept + [buckets[i]], today, days)
  {
  }

  /** The sweep as the loop runs it: `kept` holds what survived before `i`. */
  function SweepFrom(buckets: seq<Bucket>, i: nat, kept: seq<Bucket>, today: Date, days: int): Outcome<seq<Bucket>>
    requires IsValid(today) && i <= |buckets|
    decreases |buckets| - i
  {
    if i == |buckets| then Outcome(kept, None)
    else match IsExpired(buckets[i].name, today, days)
      case None => Outcome(kept + buckets[i..], Some(BadDateFormat(buckets[i].name)))
      case Some(expired) => SweepFrom(buckets, i + 1, if expired then kept else kept + [buckets[i]], today, days)
  }

  /** Running the loop from position `i` with `kept` is sweeping what is left
      and putting `kept` in front. */
  lemma {:induction false} SweepFromRest(buckets: seq<Bucket>, i: nat, kept: seq<Bucket>, today: Date, days: int)
    requires IsValid(today) && i <= |buckets|
    ensures var rest := SweepBuckets(buckets[i..], today, days);
            SweepFrom(buckets, i, kept, today, days) == Outcome(kept + rest.state, rest.error)
    decreases |buckets| - i
  {
    if i < |buckets| {
      assert buckets[i..][0] == buckets[i] && buckets[i..][1..] == buckets[i + 1..];
      var rest := SweepBuckets(buckets[i + 1..], today, days);
      match IsExpired(buckets[i].name, today, days)
      case None =>
        assert SweepBuckets(buckets[i..], today, days) == Outcome(buckets[i..], Some(BadDateFormat(buckets[i].name)));
      case Some(expired) =>
        if expired {
          SweepFromRest(buckets, i + 1, kept, today, days);
        } else {
          SweepFromRest(buckets, i + 1, kept + [buckets[i]], today, days);
          assert kept + ([buckets[i]] + rest.state) == (kept + [buckets[i]]) + rest.state;
        }
    } else {
      assert buckets[i..] == [] && kept + [] == kept;
    }
  }

  lemma SweepFromStart(buckets: seq<Bucket>, today: Date, days: int)
    requires IsValid(today)
    ensures SweepFrom(buckets, 0, [], today, days) == SweepBuckets(buckets, today, days)
  {
    assert buckets[0..] == buckets;
    SweepFromRest(buckets, 0, [], today, days);
    assert [] + SweepBuckets(buckets, today, days).state == SweepBuckets(buckets, today, days).state;
  }

  /** `removeExpiredDirectories` over the roots `folders`. */
  method RemoveExpiredDirectories(disk: CacheDisk, folders: seq<string>, today: Date, days: int) returns (error: Option<Error>)
    requires IsValid(today)
    modifies disk
    ensures disk.roots == SweepRoots(old(disk.roots), folders, today, days).state
    ensures error == SweepRoots(old(disk.roots), folders, today, days).error
  {
    for k := 0 to |folders|
      invariant SweepRoots(old(disk.roots), folders, today, days) == SweepRoots(disk.roots, folders[k..], today, days)
    {
      assert folders[k..][0] == folders[k] && folders[k..][1..] == folders[k + 1..];
      var replayFolder := folders[k];
      if replayFolder !in disk.roots {
        return Some(DirectoryNotFound(replayFolder));
      }
      error := SweepFolder(disk, replayFolder, today, days);
      if error.Some? {
        return;
      }
    }
    return None;
  }

  /** `ExecuteAsync`: sweep, wait an hour, repeat until cancelled. `todays`
      holds the date of each sweep before cancellation; an exception from a
      sweep ends the loop. The roots are the corrected ones. */
  method Execute(disk: CacheDisk, cachePath: string, legacyTemplate: string, todays: seq<Date>, days: int) returns (error: Option<Error>)
    requires AllValid(todays)
    modifies disk
    ensures disk.roots == RunSweeps(old(disk.roots), CacheFoldersCorrected(cachePath, legacyTemplate), todays, days).state
    ensures error == RunSweeps(old(disk.roots), CacheFoldersCorrected(cachePath, legacyTemplate), todays, days).error
  {
    var folders := CacheFoldersCorrected(cachePath, legacyTemplate);
    var n := 0;
    while n < |todays|
      invariant 0 <= n <= |todays|
      invariant RunSweeps(old(disk.roots), folders, todays, days) == RunSweeps(disk.roots, folders, todays[n..], days)
    {
      assert todays[n..][0] == todays[n] && todays[n..][1..] == todays[n + 1..];
      error := RemoveExpiredDirectories(disk, folders, todays[n], days);
      if error.Some? {
        return;
      }
      n := n + 1;
    }
    return None;
  }

  /** A sweep only deletes: what remains was there before. */
  lemma {:induction false} SweepKeepsOnlyExisting(buckets: seq<Bucket>, today: Date, days: int)
    requires IsValid(today)
    ensures forall x | x in SweepBuckets(buckets, today, days).state :: x in buckets
  {
    if buckets != [] {
      SweepKeepsOnlyExisting(buckets[1..], today, days);
    }
  }

  /** Only expired directories are deleted. */
  lemma {:induction false} SweepDeletesOnlyExpired(buckets: seq<Bucket>, today: Date, days: int)
    requires IsValid(today)
    ensures forall x | x in buckets && x !in SweepBuckets(buckets, today, days).state ::
              IsExpired(x.name, today, days) == Some(true)
  {
    if buckets != [] {
      SweepDeletesOnlyExpired(buckets[1..], today, days);
      assert forall x | x in buckets :: x == buckets[0] || x in buckets[1..];
    }
  }

  /** A sweep raises exactly when some directory's name is not a date. */
  lemma {:induction false} SweepFailsIff(buckets: seq<Bucket>, today: Date, days: int)
    requires IsValid(today)
    ensures SweepBuckets(buckets, today, days).error.None? <==> forall x | x in buckets :: IsExpired(x.name, today, days).Some?
  {
    if buckets != [] {
      SweepFailsIff(buckets[1..], today, days);
      assert forall x | x in buckets :: x == buckets[0] || x in buckets[1..];
    }
  }

  /** A sweep that raises nothing leaves exactly the directories within retention. */
  lemma {:induction false} SweepComplete(buckets: seq<Bucket>, today: Date, days: int)
    requires IsValid(today)
    ensures var r := SweepBuckets(buckets, today, days);
            r.error.None? ==> forall x | x in buckets :: x in r.state <==> IsExpired(x.name, today, days) == Some(false)
  {
    if buckets != [] {
      var r := SweepBuckets(buckets, today, days);
      if r.error.None? {
        SweepComplete(buckets[1..], today, days);
        SweepFailsIff(buckets, today, days);
        SweepKeepsOnlyExisting(buckets[1..], today, days);
        SweepDeletesOnlyExpired(buckets, today, days);
        assert forall x | x in buckets :: x == buckets[0] || x in buckets[1..];
      }
    }
  }

  /** The directories within retention, in enumeration order: a reference
      filter, independent of how the loop walks the root. */
  function Retained(buckets: seq<Bucket>, today: Date, days: int): seq<Bucket>
    requires IsValid(today)
  {
    if buckets == [] then []
    else (if IsExpired(buckets[0].name, today, days) == Some(false) then [buckets[0]] else [])
         + Retained(buckets[1..], today, days)
  }

  /** A sweep that raises nothing leaves the root filtered to the directories
      within retention, in their enumeration order. */
  lemma {:induction false} SweepKeepsOrder(buckets: seq<Bucket>, today: Date, days: int)
    requires IsValid(today)
    ensures var r := SweepBuckets(buckets, today, days);
            r.error.None? ==> r.state == Retained(buckets, today, days)
  {
    if buckets != [] {
      SweepKeepsOrder(buckets[1..], today, days);
    }
  }

  /** A root whose directories are all within retention is left as it is. */
  lemma {:induction false} SweepBucketsClean(buckets: seq<Bucket>, today: Date, days: int)
    requires IsValid(today)
    requires forall x | x in buckets :: IsExpired(x.name, today, days) == Some(false)
    ensures SweepBuckets(buckets, today, days) == Outcome(buckets, None)
  {
    if buckets != [] {
      assert buckets[0] in buckets;
      SweepBucketsClean(buckets[1..], today, days);
      assert [buckets[0]] + buckets[1..] == buckets;
    }
  }

  /** Sweeping again on the same day deletes nothing more. */
  lemma SweepBucketsIdempotent(buckets: seq<Bucket>, today: Date, days: int)
    requires IsValid(today)
    ensures var r := SweepBuckets(buckets, today, days);
            r.error.None? ==> SweepBuckets(r.state, today, days) == Outcome(r.state, None)
  {
    var r := SweepBuckets(buckets, today, days);
    if r.error.None? {
      SweepKeepsOnlyExisting(buckets, today, days);
      SweepComplete(buckets, today, days);
      SweepBucketsClean(r.state, today, days);
    }
  }

  /** Today's directory is never deleted, whatever the retention (for days
      within the two-digit-year window). */
  lemma TodayNeverDeleted(buckets: seq<Bucket>, today: Date, days: int)
    requires IsValid(today) && InTwoDigitWindow(today) && days >= 0
    ensures forall x | x in buckets && x.name == Dates.Format(today) :: x in SweepBuckets(buckets, today, days).state
  {
    ParseFormat(today);
    SweepDeletesOnlyExpired(buckets, today, days);
  }

  /** Expiry follows the calendar: when a directory is expired, every
      directory of an earlier day is expired too. */
  lemma ExpiryFollowsAge(today: Date, earlier: Date, later: Date, days: int)
    requires IsValid(today) && IsValid(earlier) && IsValid(later) && Before(earlier, later)
    requires AgeInDays(today, later) > days
    ensures AgeInDays(today, earlier) > days
  {
    DayNumberMonotone(earlier, later);
  }

  /** Roots are never deleted, and a root that is not swept is left as it is. */
  lemma {:induction false} SweepRootsFrame(roots: map<string, seq<Bucket>>, folders: seq<string>, today: Date, days: int)
    requires IsValid(today)
    ensures var r := SweepRoots(roots, folders, today, days);
            r.state.Keys == roots.Keys
            && forall root | root in roots && root !in folders :: r.state[root] == roots[root]
  {
    if folders != [] && folders[0] in roots {
      var swept := SweepBuckets(roots[folders[0]], today, days);
      if swept.error.None? {
        SweepRootsFrame(roots[folders[0] := swept.state], folders[1..], today, days);
      }
    }
  }

  /** After a sweep that raised nothing, every swept root exists and holds
      only directories within retention. */
  lemma {:induction false} SweepRootsClean(roots: map<string, seq<Bucket>>, folders: seq<string>, today: Date, days: int)
    requires IsValid(today)
    ensures var r := SweepRoots(roots, folders, today, days);
            r.error.None? ==>
              forall f | f in folders :: f in r.state
                && forall x | x in r.state[f] :: IsExpired(x.name, today, days) == Some(false)
  {
    var r := SweepRoots(roots, folders, today, days);
    if folders != [] && folders[0] in roots && r.error.None? {
      var swept := SweepBuckets(roots[folders[0]], today, days);
      var next := roots[folders[0] := swept.state];
      SweepKeepsOnlyExisting(roots[folders[0]], today, days);
      SweepComplete(roots[folders[0]], today, days);
      SweepRootsClean(next, folders[1..], today, days);
      SweepRootsFrame(next, folders[1..], today, days);
      assert forall f | f in folders :: f == folders[0] || f in folders[1..];
    }
  }

  /** A sweep over existing roots that hold only directories within
      retention changes nothing and raises nothing. */
  lemma {:induction false} SweepRootsOfClean(roots: map<string, seq<Bucket>>, folders: seq<string>, today: Date, days: int)
    requires IsValid(today)
    requires forall f | f in folders :: f in roots
    requires forall f | f in folders :: forall x | x in roots[f] :: IsExpired(x.name, today, days) == Some(false)
    ensures SweepRoots(roots, folders, today, days) == Outcome(roots, None)
  {
    if folders != [] {
      assert folders[0] in folders;
      SweepBucketsClean(roots[folders[0]], today, days);
      assert roots[folders[0] := roots[folders[0]]] == roots;
      assert forall f | f in folders[1..] :: f in folders;
      SweepRootsOfClean(roots, folders[1..], today, days);
    }
  }

  /** A second sweep on the same day changes nothing and raises nothing. */
  lemma SweepRootsIdempotent(roots: map<string, seq<Bucket>>, folders: seq<string>, today: Date, days: int)
    requires IsValid(today)
    ensures var r := SweepRoots(roots, folders, today, days);
            r.error.None? ==> SweepRoots(r.state, folders, today, days) == Outcome(r.state, None)
  {
    var r := SweepRoots(roots, folders, today, days);
    if r.error.None? {
      SweepRootsClean(roots, folders, today, days);
      SweepRootsOfClean(r.state, folders, today, days);
    }
  }

  /** Two sweeps on one day leave what one sweep leaves. */
  lemma RepeatedSweepSameDay(roots: map<string, seq<Bucket>>, folders: seq<string>, today: Date, days: int)
    requires IsValid(today)
    ensures RunSweeps(roots, folders, [today, today], days) == RunSweeps(roots, folders, [today], days)
  {
    SweepRootsIdempotent(roots, folders, today, days);
    assert [today, today][1..] == [today];
    assert [today][1..] == [];
  }

  /** As written, the legacy catch cache the service writes (formatted with
      "fruits") is not among the swept roots, so nothing in it ever expires. */
  lemma LegacyFruitsCacheNeverSwept(cachePath: string, legacyTemplate: string, roots: map<string, seq<Bucket>>, today: Date, days: int)
    requires IsValid(today) && Placeholders(legacyTemplate) >= 1
    requires cachePath != Paths.Format(legacyTemplate, "fruits")
    requires Paths.Format(legacyTemplate, "fruits") in roots
    ensures Paths.Format(legacyTemplate, "fruits") !in CacheFolders(cachePath, legacyTemplate)
    ensures var fruits := Paths.Format(legacyTemplate, "fruits");
            var r := SweepRoots(roots, CacheFolders(cachePath, legacyTemplate), today, days);
            fruits in r.state && r.state[fruits] == roots[fruits]
  {
    FormatInjective(legacyTemplate, "fruits", "osu");
    FormatInjective(legacyTemplate, "fruits", "taiko");
    FormatInjective(legacyTemplate, "fruits", "catch");
    FormatInjective(legacyTemplate, "fruits", "mania");
    SweepRootsFrame(roots, CacheFolders(cachePath, legacyTemplate), today, days);
  }

  /** A root that does not exist stops the sweep with an exception, and no
      root at or after it in the list is swept. */
  lemma {:induction false} SweepStopsAtMissing(roots: map<string, seq<Bucket>>, folders: seq<string>, k: int, today: Date, days: int)
    requires IsValid(today) && 0 <= k < |folders| && folders[k] !in roots
    ensures var r := SweepRoots(roots, folders, today, days);
            r.error.Some?
            && forall root | root in roots && root !in folders[..k] :: root in r.state && r.state[root] == roots[root]
    decreases k
  {
    if folders[0] in roots {
      var swept := SweepBuckets(roots[folders[0]], today, days);
      var next := roots[folders[0] := swept.state];
      if swept.error.None? {
        assert folders[1..][k - 1] == folders[k];
        SweepStopsAtMissing(next, folders[1..], k - 1, today, days);
        assert forall root | root !in folders[..k] :: root != folders[0] && root !in folders[1..][..k - 1];
      }
      assert folders[0] in folders[..k];
    }
  }

  /** As written, the sweep formats "catch", a root nothing creates: when it
      is missing the sweep raises before the legacy mania root, which comes
      after it, is swept. */
  lemma CatchRootMissingStopsSweep(cachePath: string, legacyTemplate: string, roots: map<string, seq<Bucket>>, today: Date, days: int)
    requires IsValid(today) && Placeholders(legacyTemplate) >= 1
    requires Paths.Format(legacyTemplate, "catch") !in roots
    requires Paths.Format(legacyTemplate, "mania") in roots && cachePath != Paths.Format(legacyTemplate, "mania")
    ensures var r := SweepRoots(roots, CacheFolders(cachePath, legacyTemplate), today, days);
            var mania := Paths.Format(legacyTemplate, "mania");
            r.error.Some? && mania in r.state && r.state[mania] == roots[mania]
  {
    var folders := CacheFolders(cachePath, legacyTemplate);
    FormatInjective(legacyTemplate, "mania", "osu");
    FormatInjective(legacyTemplate, "mania", "taiko");
    assert folders[..3] == [cachePath, Paths.Format(legacyTemplate, "osu"), Paths.Format(legacyTemplate, "taiko")];
    SweepStopsAtMissing(roots, folders, 3, today, days);
  }

  /** As written, the hourly loop ends with the first sweep: the missing
      "catch" root raises out of `ExecuteAsync`, so no root is swept again on
      any later day, the solo, osu and taiko roots included. */
  lemma CatchRootMissingEndsWorker(cachePath: string, legacyTemplate: string, roots: map<string, seq<Bucket>>,
                                   todays: seq<Date>, days: int)
    requires AllValid(todays) && |todays| >= 1 && Placeholders(legacyTemplate) >= 1
    requires Paths.Format(legacyTemplate, "catch") !in roots
    requires Paths.Format(legacyTemplate, "mania") in roots && cachePath != Paths.Format(legacyTemplate, "mania")
    ensures var folders := CacheFolders(cachePath, legacyTemplate);
            var r := RunSweeps(roots, folders, todays, days);
            r == SweepRoots(roots, folders, todays[0], days) && r.error.Some?
  {
    CatchRootMissingStopsSweep(cachePath, legacyTemplate, roots, todays[0], days);
  }

  /** With the corrected roots, a sweep that raises nothing leaves every
      root the cache writes holding only directories within retention. */
  lemma CorrectedSweepCoversCache(cachePath: string, legacyTemplate: string, roots: map<string, seq<Bucket>>,
                                  today: Date, days: int, rulesetId: int, legacy: bool)
    requires IsValid(today)
    requires RootDirectory(cachePath, legacyTemplate, rulesetId, legacy).Success?
    ensures var r := SweepRoots(roots, CacheFoldersCorrected(cachePath, legacyTemplate), today, days);
            var root := RootDirectory(cachePath, legacyTemplate, rulesetId, legacy).value;
            r.error.None? ==> root in r.state && forall x | x in r.state[root] :: IsExpired(x.name, today, days) == Some(false)
  {
    SweepRootsClean(roots, CacheFoldersCorrected(cachePath, legacyTemplate), today, days);
  }
}
