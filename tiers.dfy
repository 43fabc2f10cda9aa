/**
  The tier schedule and the classification of one time in one category.

  leaderboard/tiers.py is not part of this model; `result_tier` is taken to
  return the highest tier whose threshold for the category is at or above
  the time: a tier carries one threshold per category, and a time attains a
  tier when it is at or below that tier's threshold. Here the schedule is a
  sequence ordered from the lowest tier to the highest, and the answer is the
  last tier in that order that the time attains.
*/
module Tiers {
  import opened Wrappers

  /** A rung of the schedule: its name, one threshold per category, and its power. */
  datatype Tier = Tier(name: string, times: seq<int>, power: int)

  /** A time attains `tier` in category `i` when it is at or below the tier's threshold. */
  predicate Attains(tier: Tier, i: nat, time: int)
  {
    i < |tier.times| && time <= tier.times[i]
  }

  /** Tiers are listed in strictly increasing power. */
  ghost predicate PowersIncrease(schedule: seq<Tier>)
  {
    forall j, k :: 0 <= j < k < |schedule| ==> schedule[j].power < schedule[k].power
  }

  ghost predicate PowersNonNegative(schedule: seq<Tier>)
  {
    forall j :: 0 <= j < |schedule| ==> schedule[j].power >= 0
  }

  /** `tiers.result_tier(i, time)`: the highest tier that `time` attains in category `i`. */
  function ResultTier(schedule: seq<Tier>, i: nat, time: Option<int>): (r: Option<Tier>)
    ensures r.Some? ==> time.Some? && r.value in schedule && Attains(r.value, i, time.value)
    ensures r.None? ==> time.None? || forall j :: 0 <= j < |schedule| ==> !Attains(schedule[j], i, time.value)
  {
    match time
    case None => None
    case Some(t) =>
      if schedule == [] then None
      else if Attains(schedule[|schedule| - 1], i, t) then Some(schedule[|schedule| - 1])
      else ResultTier(schedule[..|schedule| - 1], i, time)
  }

  /** Of all the tiers a time attains, the classifier picks the one with the most power. */
  lemma {:induction false} ResultTierIsHighest(schedule: seq<Tier>, i: nat, t: int, j: nat)
    requires PowersIncrease(schedule)
    requires j < |schedule| && Attains(schedule[j], i, t)
    ensures ResultTier(schedule, i, Some(t)).Some?
    ensures schedule[j].power <= ResultTier(schedule, i, Some(t)).value.power
  {
    var n := |schedule|;
    if !Attains(schedule[n - 1], i, t) {
      var prefix := schedule[..n - 1];
      assert j < n - 1 && prefix[j] == schedule[j];
      ResultTierIsHighest(prefix, i, t, j);
    }
  }

  /**
    Monotonicity: for a fixed category, a faster (or equal) time never lands
    in a tier of less power than a slower time does.
  */
  lemma ResultTierMonotone(schedule: seq<Tier>, i: nat, fast: int, slow: int)
    requires PowersIncrease(schedule)
    requires fast <= slow
    requires ResultTier(schedule, i, Some(slow)).Some?
    ensures ResultTier(schedule, i, Some(fast)).Some?
    ensures ResultTier(schedule, i, Some(fast)).value.power >= ResultTier(schedule, i, Some(slow)).value.power
  {
    var tier := ResultTier(schedule, i, Some(slow)).value;
    var j :| 0 <= j < |schedule| && schedule[j] == tier;
    ResultTierIsHighest(schedule, i, fast, j);
  }
}
