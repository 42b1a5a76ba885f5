/** Where both file-backed tiers put a replay: the solo base directory, or
    the legacy directory template formatted with the ruleset's name, and
    below it a file named by the score id in invariant-culture decimal. */
module ReplayPaths {
  import opened Wrappers
  import opened Numbers
  import opened Errors
  import opened Paths
  import opened Rulesets

  /** The directory a key's replays live under (`getReplayDirectory` of the
      durable store, the base directory of the cache). Solo keys ignore the
      ruleset; legacy keys resolve its name, which fails for an invalid id. */
  function RootDirectory(baseDirectory: string, legacyTemplate: string, rulesetId: int, legacy: bool): (r: Result<string, Error>)
    ensures !legacy ==> r == Success(baseDirectory)
    ensures legacy ==> (r.Success? <==> IsValidRulesetId(rulesetId))
    ensures legacy && !IsValidRulesetId(rulesetId) ==> r == Failure(InvalidRuleset(rulesetId))
    ensures legacy && IsValidRulesetId(rulesetId) ==> r == Success(Format(legacyTemplate, NAMES[rulesetId]))
  {
    if legacy then
      var ruleset :- RulesetName(rulesetId);
      Success(Format(legacyTemplate, ruleset))
    else
      Success(baseDirectory)
  }

  /** `scoreId.ToString(CultureInfo.InvariantCulture)`, the replay's file name. */
  function ScoreFileName(scoreId: int): (name: string)
    ensures IsPlainName(name)
    ensures ParseDecimal(name) == Some(scoreId)
  {
    DecimalRoundTrip(scoreId);
    Decimal(scoreId)
  }

  /** Distinct score ids have distinct file names. */
  lemma ScoreFileNameInjective(a: int, b: int)
    ensures ScoreFileName(a) == ScoreFileName(b) <==> a == b
  {
    DecimalInjective(a, b);
  }

  /** A layout whose roots cannot collide: the legacy template holds `{0}`,
      and the solo directory and every legacy directory are distinct
      directory paths without a trailing separator. */
  predicate WellSeparated(baseDirectory: string, legacyTemplate: string) {
    Placeholders(legacyTemplate) >= 1
    && IsDirectoryPath(baseDirectory)
    && forall i | 0 <= i < |NAMES| :: IsDirectoryPath(Format(legacyTemplate, NAMES[i]))
                                   && Format(legacyTemplate, NAMES[i]) != baseDirectory
  }

  /** Distinct rulesets get distinct legacy directories. */
  lemma LegacyRootsDistinct(baseDirectory: string, legacyTemplate: string, a: int, b: int)
    requires Placeholders(legacyTemplate) >= 1
    requires IsValidRulesetId(a) && IsValidRulesetId(b)
    ensures RootDirectory(baseDirectory, legacyTemplate, a, true) == RootDirectory(baseDirectory, legacyTemplate, b, true) <==> a == b
  {
    FormatInjective(legacyTemplate, NAMES[a], NAMES[b]);
    RulesetNameInjective(a, b);
  }

  /** The keys the tiers tell apart: solo keys by score id alone, legacy keys by ruleset and score id. */
  predicate SameKey(s1: int, r1: int, l1: bool, s2: int, r2: int, l2: bool) {
    s1 == s2 && l1 == l2 && (l1 ==> r1 == r2)
  }

  /** In a well-separated layout, distinct keys resolve to distinct files. */
  lemma KeysIsolated(baseDirectory: string, legacyTemplate: string,
                     s1: int, r1: int, l1: bool, s2: int, r2: int, l2: bool)
    requires WellSeparated(baseDirectory, legacyTemplate)
    requires RootDirectory(baseDirectory, legacyTemplate, r1, l1).Success?
    requires RootDirectory(baseDirectory, legacyTemplate, r2, l2).Success?
    ensures var p1 := Combine(RootDirectory(baseDirectory, legacyTemplate, r1, l1).value, ScoreFileName(s1));
            var p2 := Combine(RootDirectory(baseDirectory, legacyTemplate, r2, l2).value, ScoreFileName(s2));
            p1 == p2 <==> SameKey(s1, r1, l1, s2, r2, l2)
  {
    var d1 := RootDirectory(baseDirectory, legacyTemplate, r1, l1).value;
    var d2 := RootDirectory(baseDirectory, legacyTemplate, r2, l2).value;
    assert l1 ==> Format(legacyTemplate, NAMES[r1]) == d1;
    assert l2 ==> Format(legacyTemplate, NAMES[r2]) == d2;
    CombineUnique(d1, ScoreFileName(s1), d2, ScoreFileName(s2));
    ScoreFileNameInjective(s1, s2);
    if l1 && l2 {
      LegacyRootsDistinct(baseDirectory, legacyTemplate, r1, r2);
    }
  }
}
