/** `LegacyRulesetHelper`: legacy ruleset ids 0..3, their names and the
    per-ruleset database tables. */
module Rulesets {
  import opened Wrappers
  import opened Errors

  /** The name of every valid ruleset id, in id order. */
  const NAMES: seq<string> := ["osu", "taiko", "fruits", "mania"]

  predicate IsValidRulesetId(id: int) {
    0 <= id < 4
  }

  /** `GetRulesetNameFromLegacyId`: a switch over 0..3, an argument error otherwise. */
  function RulesetName(id: int): (r: Result<string, Error>)
    ensures r.Success? <==> IsValidRulesetId(id)
    ensures r.Success? ==> r.value == NAMES[id]
    ensures r.Failure? ==> r.error == InvalidRuleset(id)
  {
    match id
    case 0 => Success("osu")
    case 1 => Success("taiko")
    case 2 => Success("fruits")
    case 3 => Success("mania")
    case _ => Failure(InvalidRuleset(id))
  }

  /** `getLegacyTableSuffixFromLegacyId`: the name is resolved first (so an
      invalid id fails), then id 0 gets no suffix and the others "_name". */
  function TableSuffix(id: int): (r: Result<string, Error>)
    ensures r.Success? <==> IsValidRulesetId(id)
    ensures r.Success? ==> r.value == if id == 0 then "" else "_" + NAMES[id]
  {
    var ruleset :- RulesetName(id);
    Success(if id != 0 then "_" + ruleset else "")
  }

  /** `GetLegacyHighScoreTableFromLegacyId`. */
  function HighScoreTable(id: int): (r: Result<string, Error>)
    ensures r.Success? <==> RulesetName(id).Success?
    ensures r.Failure? ==> r == Failure(InvalidRuleset(id))
    ensures id == 0 ==> r == Success("osu_scores_high")
    ensures 1 <= id < 4 ==> r == Success("osu_scores_" + NAMES[id] + "_high")
  {
    var suffix :- TableSuffix(id);
    assert id == 0 ==> "osu_scores" + suffix + "_high" == "osu_scores_high";
    assert 1 <= id < 4 ==> "osu_scores" + suffix == "osu_scores_" + NAMES[id];
    Success("osu_scores" + suffix + "_high")
  }

  /** `GetLegacyReplayViewCountTableFromLegacyId`, the table holding replay versions. */
  function ReplayTable(id: int): (r: Result<string, Error>)
    ensures r.Success? <==> RulesetName(id).Success?
    ensures r.Failure? ==> r == Failure(InvalidRuleset(id))
    ensures id == 0 ==> r == Success("osu_replays")
    ensures 1 <= id < 4 ==> r == Success("osu_replays_" + NAMES[id])
  {
    var suffix :- TableSuffix(id);
    assert id == 0 ==> "osu_replays" + suffix == "osu_replays";
    assert 1 <= id < 4 ==> "osu_replays" + suffix == "osu_replays_" + NAMES[id];
    Success("osu_replays" + suffix)
  }

  /** Distinct valid ids have distinct names. */
  lemma RulesetNameInjective(a: int, b: int)
    requires IsValidRulesetId(a) && IsValidRulesetId(b)
    ensures RulesetName(a) == RulesetName(b) <==> a == b
  {
  }

  /** Distinct valid ids read and write distinct tables. */
  lemma TablesInjective(a: int, b: int)
    requires IsValidRulesetId(a) && IsValidRulesetId(b) && a != b
    ensures HighScoreTable(a) != HighScoreTable(b)
    ensures ReplayTable(a) != ReplayTable(b)
  {
    var ha, hb := HighScoreTable(a).value, HighScoreTable(b).value;
    var ra, rb := ReplayTable(a).value, ReplayTable(b).value;
    assert ha[11] != hb[11];
    if a == 0 || b == 0 {
      assert |ra| != |rb|;
    } else {
      assert ra[12] != rb[12];
    }
  }
}
