/**
 * The employee's statistics card: Monday-to-Friday pin counts read from
 * the response's weekday map, the bar scale, the quota message, the
 * comparison with the team's average weight, and the week-over-week trend
 * arrows. Bar widths and `toFixed` display are not part of this model.
 */
module UserStatsView {
  import opened Common

  /** `weekdayNames`, in display order. */
  const WEEKDAY_NAMES: seq<string> := ["Monday", "Tuesday", "Wednesday", "Thursday", "Friday"]

  /** `map[key] || 0`: an absent key reads as 0. */
  function CountOf(byWeekday: map<string, int>, key: string): int
  {
    if key in byWeekday then byWeekday[key] else 0
  }

  /** The keys the response uses, in the same order. */
  const WEEKDAY_KEYS: seq<string> := ["monday", "tuesday", "wednesday", "thursday", "friday"]

  /**
   * The five bars: each weekday's count, looked up under its name in lower
   * case (`WeekdayKey` shows the keys are those names lower-cased).
   */
  function WeekdayCounts(byWeekday: map<string, int>): (counts: seq<int>)
    ensures |counts| == |WEEKDAY_NAMES| == 5
    ensures forall i :: 0 <= i < 5 ==> counts[i] == CountOf(byWeekday, WEEKDAY_KEYS[i])
    ensures forall i :: 0 <= i < 5 ==> (WEEKDAY_KEYS[i] !in byWeekday ==> counts[i] == 0)
  {
    seq(5, i requires 0 <= i < 5 => CountOf(byWeekday, WEEKDAY_KEYS[i]))
  }

  /** `day.toLowerCase()` turns each weekday name into its key. */
  lemma WeekdayKey(i: nat)
    requires i < 5
    ensures Lower(WEEKDAY_NAMES[i]) == WEEKDAY_KEYS[i]
  {
    if i == 0 { LowerName("Monday", "monday"); }
    else if i == 1 { LowerName("Tuesday", "tuesday"); }
    else if i == 2 { LowerName("Wednesday", "wednesday"); }
    else if i == 3 { LowerName("Thursday", "thursday"); }
    else { LowerName("Friday", "friday"); }
  }

  /** A capitalised name lower-cases to the same word with a small first letter. */
  lemma LowerName(name: string, key: string)
    requires |name| == |key| > 0 && 'A' <= name[0] <= 'Z' && key[0] == (name[0] as int + 32) as char
    requires forall i :: 1 <= i < |name| ==> 'a' <= name[i] <= 'z' && key[i] == name[i]
    ensures Lower(name) == key
  {
    forall i | 0 <= i < |name|
      ensures Lower(name)[i] == key[i]
    {
    }
  }

  /** `Math.max(...counts, 1)`: the largest count, but never below 1. */
  function MaxCount(counts: seq<int>): (m: int)
    ensures m >= 1
    ensures forall i :: 0 <= i < |counts| ==> counts[i] <= m
    ensures m == 1 || m in counts
  {
    if counts == [] then 1
    else
      var rest := MaxCount(counts[1..]);
      assert forall i :: 1 <= i < |counts| ==> counts[i] == counts[1..][i - 1];
      if counts[0] >= rest then counts[0] else rest
  }

  /** Each bar's fraction count / maxCount lies in [0, 1] when the counts are not negative. */
  lemma BarFractionInUnit(counts: seq<int>, i: int)
    requires 0 <= i < |counts| && forall k :: 0 <= k < |counts| ==> counts[k] >= 0
    ensures 0.0 <= counts[i] as real / MaxCount(counts) as real <= 1.0
  {
    var m := MaxCount(counts);
    FractionInUnit(counts[i] as real, m as real);
  }

  lemma FractionInUnit(c: real, m: real)
    requires 0.0 <= c <= m && m > 0.0
    ensures 0.0 <= c / m <= 1.0
  {
  }

  /** The "No shifts pinned yet" note: shown iff every weekday count is 0. */
  predicate ShowsNoPinsNote(counts: seq<int>)
  {
    forall i :: 0 <= i < |counts| ==> counts[i] == 0
  }

  /** With nothing pinned the bars fall back to the scale 1. */
  lemma NoPinsScale(counts: seq<int>)
    requires ShowsNoPinsNote(counts)
    ensures MaxCount(counts) == 1
  {
  }

  // ---------------------------------------------------------------------------
  // Quota and weight comparison
  // ---------------------------------------------------------------------------

  datatype QuotaLine = QuotaMet | MoreNeeded(shortfall: int)

  /** "Quota met!" when the pins reach the simulated quota, else how many more are needed. */
  function QuotaMessage(totalPinnedShifts: int, simulatedQuota: int): (q: QuotaLine)
    ensures q == QuotaMet <==> totalPinnedShifts >= simulatedQuota
    ensures q.MoreNeeded? ==> q.shortfall > 0 && totalPinnedShifts + q.shortfall == simulatedQuota
  {
    if totalPinnedShifts >= simulatedQuota then QuotaMet else MoreNeeded(simulatedQuota - totalPinnedShifts)
  }

  datatype Comparison = Above | Below | AtAverage

  /** The weight card: above, below or right at the team average. */
  function CompareWeight(averageWeight: real, teamAverageWeight: real): (c: Comparison)
    ensures c == Above <==> averageWeight > teamAverageWeight
    ensures c == Below <==> averageWeight < teamAverageWeight
    ensures c == AtAverage <==> averageWeight == teamAverageWeight
  {
    if averageWeight > teamAverageWeight then Above
    else if averageWeight < teamAverageWeight then Below
    else AtAverage
  }

  // ---------------------------------------------------------------------------
  // Weekly trend
  // ---------------------------------------------------------------------------

  datatype Arrow = Rising | Falling | Level

  /** The arrow beside week i: none for the first week, else its direction from the week before. */
  function TrendArrow(weeks: seq<int>, i: nat): (a: Option<Arrow>)
    requires i < |weeks|
    ensures a.None? <==> i == 0
    ensures a == Some(Rising) <==> i > 0 && weeks[i] > weeks[i - 1]
    ensures a == Some(Falling) <==> i > 0 && weeks[i] < weeks[i - 1]
    ensures a == Some(Level) <==> i > 0 && weeks[i] == weeks[i - 1]
  {
    if i == 0 then None
    else if weeks[i] > weeks[i - 1] then Some(Rising)
    else if weeks[i] < weeks[i - 1] then Some(Falling)
    else Some(Level)
  }

  /** Without a falling arrow up to week n, no week up to n has fewer pins than the first. */
  lemma {:induction false} NoFallSinceFirst(weeks: seq<int>, n: nat)
    requires n < |weeks|
    requires forall i :: 0 < i <= n ==> TrendArrow(weeks, i) != Some(Falling)
    ensures forall i :: 0 <= i <= n ==> weeks[0] <= weeks[i]
  {
    if n > 0 {
      NoFallSinceFirst(weeks, n - 1);
      assert TrendArrow(weeks, n) != Some(Falling);
    }
  }
}
