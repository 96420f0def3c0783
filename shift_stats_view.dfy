/**
 * The admin shift-popularity table: a sort state that a header click toggles,
 * the comparator that orders a copy of the rows by the chosen field, the
 * colour class of a pin count, and the inline weight editor's state.
 * The rows come from the backend; fetching them is not part of this model.
 */
module ShiftStatsView {
  import opened Common

  datatype SortField = Date | Type | PinCount | Weight
  datatype SortDirection = Asc | Desc
  datatype SortState = SortState(field: SortField, direction: SortDirection)

  /** The initial `useState` values: by date, ascending. */
  const INITIAL_SORT: SortState := SortState(Date, Asc)

  /** A table row; `date` is the row's instant, as `new Date(date).getTime()` gives it. */
  datatype ShiftStat = ShiftStat(id: Id, date: Time, shiftType: ShiftType, pinCount: int, weight: real)

  // ---------------------------------------------------------------------------
  // handleSort
  // ---------------------------------------------------------------------------

  function Flip(d: SortDirection): SortDirection
  {
    if d == Asc then Desc else Asc
  }

  /** The sort state after a click on a column header. */
  function NextSort(st: SortState, field: SortField): (r: SortState)
    ensures r.field == field
    ensures st.field == field ==> r.direction != st.direction
    ensures st.field != field ==> r.direction == Asc
  {
    if st.field == field then SortState(field, Flip(st.direction)) else SortState(field, Asc)
  }

  /** Two clicks on the column already sorted by give back the state before them. */
  lemma SecondClickRestores(st: SortState)
    ensures NextSort(NextSort(st, st.field), st.field) == st
  {
  }

  /** Two clicks on a new column leave it sorted descending. */
  lemma NewColumnTwice(st: SortState, field: SortField)
    requires st.field != field
    ensures NextSort(NextSort(st, field), field) == SortState(field, Desc)
  {
  }

  // ---------------------------------------------------------------------------
  // sortedShifts
  // ---------------------------------------------------------------------------

  /**
   * The value the comparator compares. Dates compare by timestamp; the type
   * strings "early" and "late" compare as strings, and 'e' < 'l' puts early
   * first, which the ranks 0 and 1 keep.
   */
  function Key(s: ShiftStat, field: SortField): real
  {
    match field
    case Date => s.date as real
    case Type => if s.shiftType == EARLY then 0.0 else 1.0
    case PinCount => s.pinCount as real
    case Weight => s.weight
  }

  /** The key as the chosen direction orders it: ascending by the key, descending by its negation. */
  function Rank(s: ShiftStat, st: SortState): real
  {
    if st.direction == Asc then Key(s, st.field) else -Key(s, st.field)
  }

  /** The comparator returns a negative number: a goes strictly before b. */
  predicate Precedes(a: ShiftStat, b: ShiftStat, st: SortState)
  {
    Rank(a, st) < Rank(b, st)
  }

  /** No row is strictly before one that comes earlier in the list. */
  predicate Sorted(xs: seq<ShiftStat>, st: SortState)
  {
    forall i, j :: 0 <= i < j < |xs| ==> Rank(xs[i], st) <= Rank(xs[j], st)
  }

  /** In ascending order the key never falls along the list; in descending order it never rises. */
  lemma SortedMeansMonotone(xs: seq<ShiftStat>, st: SortState, i: int, j: int)
    requires Sorted(xs, st) && 0 <= i < j < |xs|
    ensures st.direction == Asc ==> Key(xs[i], st.field) <= Key(xs[j], st.field)
    ensures st.direction == Desc ==> Key(xs[i], st.field) >= Key(xs[j], st.field)
  {
  }

  /** x put in front of the first row it strictly precedes, so after every row it ties with. */
  function Insert(x: ShiftStat, s: seq<ShiftStat>, st: SortState): (r: seq<ShiftStat>)
    ensures multiset(r) == multiset(s) + multiset{x}
    ensures |r| == |s| + 1
    ensures r[0] == x || (s != [] && r[0] == s[0])
    ensures Sorted(s, st) ==> Sorted(r, st)
  {
    if s == [] then [x]
    else if Precedes(x, s[0], st) then [x] + s
    else
      var rest := Insert(x, s[1..], st);
      assert s == [s[0]] + s[1..];
      [s[0]] + rest
  }

  /**
   * `[...shifts].sort(comparator)`: a sorted permutation of the rows. The
   * table's own list is a value and stays as it was.
   */
  function SortedShifts(shifts: seq<ShiftStat>, st: SortState): (r: seq<ShiftStat>)
    ensures multiset(r) == multiset(shifts)
    ensures |r| == |shifts|
    ensures Sorted(r, st)
  {
    if shifts == [] then []
    else
      var front := shifts[..|shifts| - 1];
      assert shifts == front + [shifts[|shifts| - 1]];
      Insert(shifts[|shifts| - 1], SortedShifts(front, st), st)
  }

  /** Sorting an already sorted list changes nothing. */
  lemma {:induction false} SortSortedIsIdentity(shifts: seq<ShiftStat>, st: SortState)
    requires Sorted(shifts, st)
    ensures SortedShifts(shifts, st) == shifts
  {
    if shifts != [] {
      var front := shifts[..|shifts| - 1];
      var last := shifts[|shifts| - 1];
      assert Sorted(front, st);
      SortSortedIsIdentity(front, st);
      assert forall k :: 0 <= k < |front| ==> !Precedes(last, front[k], st);
      InsertAfterAll(last, front, st);
      assert front + [last] == shifts;
    }
  }

  lemma {:induction false} InsertAfterAll(x: ShiftStat, s: seq<ShiftStat>, st: SortState)
    requires forall k :: 0 <= k < |s| ==> !Precedes(x, s[k], st)
    ensures Insert(x, s, st) == s + [x]
  {
    if s != [] {
      InsertAfterAll(x, s[1..], st);
      assert s == [s[0]] + s[1..];
    }
  }

  // ---------------------------------------------------------------------------
  // getPinCountColor
  // ---------------------------------------------------------------------------

  datatype PinColour = Red | Orange | Green | Gray

  /** The colour class of a pin count: 8 or more red, 5 to 7 orange, 2 to 4 green, below 2 gray. */
  function PinCountColour(pinCount: int): (c: PinColour)
    ensures c == Red <==> pinCount >= 8
    ensures c == Orange <==> 5 <= pinCount < 8
    ensures c == Green <==> 2 <= pinCount < 5
    ensures c == Gray <==> pinCount < 2
  {
    if pinCount >= 8 then Red
    else if pinCount >= 5 then Orange
    else if pinCount >= 2 then Green
    else Gray
  }

  function Heat(c: PinColour): nat
  {
    match c
    case Gray => 0
    case Green => 1
    case Orange => 2
    case Red => 3
  }

  /** More pins never give a cooler colour. */
  lemma ColourMonotone(a: int, b: int)
    requires a <= b
    ensures Heat(PinCountColour(a)) <= Heat(PinCountColour(b))
  {
  }

  // ---------------------------------------------------------------------------
  // The component's state
  // ---------------------------------------------------------------------------

  /**
   * The table's React state: the sort, the id of the row whose weight is
   * being edited, and the draft weight text. `show` stands for
   * `weight.toString()`.
   */
  class ShiftStatsState {
    var sort: SortState
    var editingShift: Option<Id>
    var editWeight: string

    constructor ()
      ensures sort == INITIAL_SORT && editingShift == None && editWeight == ""
    {
      sort := INITIAL_SORT;
      editingShift := None;
      editWeight := "";
    }

    /** `handleSort`: only the sort changes. */
    method HandleSort(field: SortField)
      modifies this
      ensures sort == NextSort(old(sort), field)
      ensures editingShift == old(editingShift) && editWeight == old(editWeight)
    {
      if sort.field == field {
        sort := SortState(field, Flip(sort.direction));
      } else {
        sort := SortState(field, Asc);
      }
    }

    /** `startEditing`: the row's id and its weight as text become the draft. */
    method StartEditing(shift: ShiftStat, show: real -> string)
      modifies this
      ensures editingShift == Some(shift.id) && editWeight == show(shift.weight)
      ensures sort == old(sort)
    {
      editingShift := Some(shift.id);
      editWeight := show(shift.weight);
    }

    /** `cancelEditing`: no row is edited and the draft is empty; the sort stays. */
    method CancelEditing()
      modifies this
      ensures editingShift == None && editWeight == ""
      ensures sort == old(sort)
    {
      editingShift := None;
      editWeight := "";
    }
  }
}
