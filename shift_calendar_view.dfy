/**
 * The employee's weekly shift calendar: the estimated quota shown on the
 * card, the count of shifts the user has pinned, and the lookup that places
 * a shift in the Monday-to-Friday grid by weekday and type. The weekday of
 * a shift's date (`getDay`, 0 for Sunday) is a field of the row: local-time
 * calendar arithmetic is not part of this model.
 */
module ShiftCalendarView {
  import opened Common

  /** A shift as the calendar receives it; `dayOfWeek` is `new Date(date).getDay()`. */
  datatype CalendarShift = CalendarShift(id: Id, dayOfWeek: int, shiftType: ShiftType,
                                         pinCount: nat, isPinnedByUser: bool)

  // ---------------------------------------------------------------------------
  // estimatedQuota
  // ---------------------------------------------------------------------------

  /** Working days in a week, the multiplier of the card's estimate. */
  const DAYS_PER_WEEK: int := 5

  /**
   * `Math.round(cp / 100 * 5)`: the integer (cp + 10) div 20, so a percent
   * in [0, 100] gives at most 5 shifts, and 0 gives 5 as well.
   */
  function EstimatedQuota(contractPercentage: Option<int>): (q: int)
    ensures q == (PercentOrFull(contractPercentage) + 10) / 20
    ensures contractPercentage.Some? && 0 <= contractPercentage.value <= 100 ==> 0 <= q <= DAYS_PER_WEEK
    ensures contractPercentage.None? || contractPercentage == Some(0) ==> q == DAYS_PER_WEEK
  {
    var cp := PercentOrFull(contractPercentage);
    var x := cp as real / 100.0 * DAYS_PER_WEEK as real + 0.5;
    var y := (cp + 10) / 20;
    assert x == (cp + 10) as real / 20.0;
    assert 20 * y <= cp + 10 < 20 * y + 20;
    assert y as real <= x < y as real + 1.0;
    Round(cp as real / 100.0 * DAYS_PER_WEEK as real)
  }

  // ---------------------------------------------------------------------------
  // getShiftForDayAndType
  // ---------------------------------------------------------------------------

  /** Sunday (0) becomes 6 and every other day d becomes d - 1, so Monday is column 0. */
  function GridDay(dayOfWeek: int): int
  {
    if dayOfWeek == 0 then 6 else dayOfWeek - 1
  }

  /** The mapping is a bijection of 0..6 onto itself, Monday to Friday landing on columns 0 to 4. */
  lemma GridDayBijective(a: int, b: int)
    requires 0 <= a <= 6 && 0 <= b <= 6
    ensures 0 <= GridDay(a) <= 6
    ensures GridDay(a) == GridDay(b) ==> a == b
    ensures 1 <= a <= 5 <==> 0 <= GridDay(a) <= 4
  {
  }

  /** Every column 0..6 is the image of exactly the day (column + 1) mod 7. */
  lemma GridDayInverse(column: int)
    requires 0 <= column <= 6
    ensures GridDay((column + 1) % 7) == column
  {
  }

  predicate InCell(s: CalendarShift, dayIndex: int, shiftType: ShiftType)
  {
    GridDay(s.dayOfWeek) == dayIndex && s.shiftType == shiftType
  }

  /**
   * The shift shown in a cell: None for an empty list, else the first shift
   * of its weekday column and type (`find`).
   */
  function ShiftForDayAndType(shifts: seq<CalendarShift>, dayIndex: int, shiftType: ShiftType): (r: Option<nat>)
    ensures r.None? <==> forall k :: 0 <= k < |shifts| ==> !InCell(shifts[k], dayIndex, shiftType)
    ensures r.Some? ==> (r.value < |shifts| && InCell(shifts[r.value], dayIndex, shiftType)
      && forall k :: 0 <= k < r.value ==> !InCell(shifts[k], dayIndex, shiftType))
  {
    if shifts == [] then None
    else if InCell(shifts[0], dayIndex, shiftType) then Some(0)
    else
      var rest := ShiftForDayAndType(shifts[1..], dayIndex, shiftType);
      if rest.None? then None else Some(rest.value + 1)
  }

  // ---------------------------------------------------------------------------
  // The fetched shifts and the pinned count
  // ---------------------------------------------------------------------------

  function IsPinned(s: CalendarShift): bool
  {
    s.isPinnedByUser
  }

  /**
   * The calendar's state: the shifts of the active window and the count of
   * those the user pinned, which the fetch callbacks keep consistent.
   */
  class CalendarState {
    var shifts: seq<CalendarShift>
    var pinnedCount: nat

    ghost predicate Valid()
      reads this
    {
      pinnedCount == |Filter(shifts, IsPinned)|
    }

    constructor ()
      ensures Valid() && shifts == [] && pinnedCount == 0
    {
      shifts := [];
      pinnedCount := 0;
    }

    /** `onSuccess`: `response.shifts || []` is stored and its pinned shifts are counted. */
    method OnFetchSuccess(response: Option<seq<CalendarShift>>)
      modifies this
      ensures Valid()
      ensures shifts == (if response.Some? then response.value else [])
    {
      shifts := if response.Some? then response.value else [];
      pinnedCount := |Filter(shifts, IsPinned)|;
    }

    /** `onError` and the catch: back to an empty calendar. */
    method OnFetchError()
      modifies this
      ensures Valid() && shifts == [] && pinnedCount == 0
    {
      shifts := [];
      pinnedCount := 0;
    }
  }

  /** The pinned count never exceeds the number of shifts shown. */
  lemma PinnedAtMostShown(shifts: seq<CalendarShift>)
    ensures |Filter(shifts, IsPinned)| <= |shifts|
    ensures (forall k :: 0 <= k < |shifts| ==> shifts[k].isPinnedByUser) ==> |Filter(shifts, IsPinned)| == |shifts|
  {
    if forall k :: 0 <= k < |shifts| ==> shifts[k].isPinnedByUser {
      FilterKeepsAll(shifts, IsPinned);
    }
  }
}
