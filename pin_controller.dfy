/**
 * Pins: a user marks a shift they would like to work. `CreatePin` runs the
 * ordered validation chain of the pin controller and inserts one row;
 * `GetUserPins` groups a user's pins by the window of their shift.
 */
module PinController {
  import opened Common
  import opened Store
  import opened Grouping

  // ---------------------------------------------------------------------------
  // createPin
  // ---------------------------------------------------------------------------

  /** Both ids are given and name a stored user and a stored shift. */
  predicate Known(users: map<Id, User>, shifts: map<Id, Shift>, userId: Option<Id>, shiftId: Option<Id>)
  {
    userId.Some? && shiftId.Some? && userId.value in users && shiftId.value in shifts
  }

  /** The shift's date lies in its window's timeframe, both bounds included. */
  predicate WithinWindow(s: Shift, w: Window)
  {
    w.startDate <= s.date <= w.endDate
  }

  /**
   * The first check of `createPin` that fails, or None when the pin may be
   * inserted. A missing (or empty) id is None.
   */
  function PinRefusal(users: map<Id, User>, shifts: map<Id, Shift>, windows: map<Id, Window>, pins: seq<Pin>,
                      userId: Option<Id>, shiftId: Option<Id>): (r: Option<Reason>)
    ensures r == Some(MissingFields) <==> userId.None? || shiftId.None?
    ensures r == Some(UserNotFound) <==> userId.Some? && shiftId.Some? && userId.value !in users
    ensures r == Some(ShiftNotFound) <==> userId.Some? && shiftId.Some? && userId.value in users && shiftId.value !in shifts
    ensures r == Some(InternalError) <==> (Known(users, shifts, userId, shiftId)
      && shifts[shiftId.value].windowId !in windows)
    ensures r == Some(OutsidePinWindow) <==> (Known(users, shifts, userId, shiftId)
      && shifts[shiftId.value].windowId in windows
      && !WithinWindow(shifts[shiftId.value], windows[shifts[shiftId.value].windowId]))
    ensures r == Some(AlreadyPinned) <==> (Known(users, shifts, userId, shiftId)
      && shifts[shiftId.value].windowId in windows
      && WithinWindow(shifts[shiftId.value], windows[shifts[shiftId.value].windowId])
      && Pinned(pins, userId.value, shiftId.value))
    ensures r.None? <==> (Known(users, shifts, userId, shiftId)
      && shifts[shiftId.value].windowId in windows
      && WithinWindow(shifts[shiftId.value], windows[shifts[shiftId.value].windowId])
      && !Pinned(pins, userId.value, shiftId.value))
  {
    if userId.None? || shiftId.None? then Some(MissingFields)
    else if userId.value !in users then Some(UserNotFound)
    else if shiftId.value !in shifts then Some(ShiftNotFound)
    else
      var shift := shifts[shiftId.value];
      if shift.windowId !in windows then Some(InternalError)  // `shift.shiftWindow` is null: the read throws
      else
        var w := windows[shift.windowId];
        if shift.date < w.startDate || shift.date > w.endDate then Some(OutsidePinWindow)
        else if Pinned(pins, userId.value, shiftId.value) then Some(AlreadyPinned)
        else None
  }

  /** Both bounds of the window are inclusive: a shift on the first or last instant may be pinned. */
  lemma WindowBoundsInclusive(users: map<Id, User>, shifts: map<Id, Shift>, windows: map<Id, Window>, pins: seq<Pin>, u: Id, s: Id)
    requires u in users && s in shifts && shifts[s].windowId in windows
    requires !Pinned(pins, u, s)
    ensures PinRefusal(users, shifts, windows, pins, Some(u), Some(s)).None? <==>
      windows[shifts[s].windowId].startDate <= shifts[s].date <= windows[shifts[s].windowId].endDate
  {
  }

  /** A second request for a pair that was just pinned is refused with 409. */
  lemma RepinRefused(users: map<Id, User>, shifts: map<Id, Shift>, windows: map<Id, Window>, pins: seq<Pin>, u: Id, s: Id, now: Time)
    requires PinRefusal(users, shifts, windows, pins, Some(u), Some(s)).None?
    ensures PinRefusal(users, shifts, windows, pins + [Pin(u, s, now)], Some(u), Some(s)) == Some(AlreadyPinned)
  {
    var ps := pins + [Pin(u, s, now)];
    assert ps[|pins|].userId == u && ps[|pins|].shiftId == s;
  }

  /** Admitting a pin keeps the pin table's integrity: references exist and pairs stay unique. */
  lemma AdmittedPinKeepsTableValid(users: map<Id, User>, shifts: map<Id, Shift>, windows: map<Id, Window>, pins: seq<Pin>, u: Id, s: Id, now: Time)
    requires PinsValid(pins, users, shifts)
    requires PinRefusal(users, shifts, windows, pins, Some(u), Some(s)).None?
    ensures PinsValid(pins + [Pin(u, s, now)], users, shifts)
  {
    var ps := pins + [Pin(u, s, now)];
    forall i, j | 0 <= i < j < |ps| ensures ps[i].userId != ps[j].userId || ps[i].shiftId != ps[j].shiftId
    {
      if j == |pins| {
        assert ps[i] == pins[i];
        assert !(pins[i].userId == u && pins[i].shiftId == s);
      } else {
        assert ps[i] == pins[i] && ps[j] == pins[j];
      }
    }
  }

  /**
   * `createPin`: on success exactly one pin is appended (201) and no other
   * table changes; on any refusal the store is left as it was.
   */
  method CreatePin(db: Db, userId: Option<Id>, shiftId: Option<Id>, now: Time) returns (reply: Reply<Pin>)
    requires db.Valid()
    modifies db`pins
    ensures db.Valid()
    ensures var refusal := PinRefusal(old(db.users), old(db.shifts), old(db.windows), old(db.pins), userId, shiftId);
      && (refusal.Some? ==> reply == Err(refusal.value) && db.pins == old(db.pins))
      && (refusal.None? ==> reply == Ok(201, Pin(userId.value, shiftId.value, now))
                            && db.pins == old(db.pins) + [Pin(userId.value, shiftId.value, now)])
  {
    var refusal := PinRefusal(db.users, db.shifts, db.windows, db.pins, userId, shiftId);
    if refusal.Some? {
      return Err(refusal.value);
    }
    var pin := Pin(userId.value, shiftId.value, now);
    AdmittedPinKeepsTableValid(db.users, db.shifts, db.windows, db.pins, userId.value, shiftId.value, now);
    db.pins := db.pins + [pin];
    reply := Ok(201, pin);
  }

  // ---------------------------------------------------------------------------
  // getUserPins
  // ---------------------------------------------------------------------------

  /** One row of the user's pin query: the pin joined with its shift. */
  datatype PinRow = PinRow(shiftId: Id, date: Time, kind: ShiftType, windowId: Id, createdAt: Time)

  datatype UserPins = UserPins(userId: Id, data: seq<Group<PinRow>>, totalPins: nat)

  function WindowOf(row: PinRow): Id
  {
    row.windowId
  }

  /** Position of a type in the enum's declaration order, which is how the store sorts it. */
  function TypeRank(t: ShiftType): int
  {
    match t
    case EARLY => 0
    case LATE => 1
  }

  /** A single key realising the query's order: by date, then by type. */
  function DateTypeRank(row: PinRow): int
  {
    2 * row.date + TypeRank(row.kind)
  }

  /** `orderBy: [{date: 'asc'}, {type: 'asc'}]` holds for these rows. */
  predicate InQueryOrder(rows: seq<PinRow>)
  {
    forall i, j :: 0 <= i < j < |rows| ==>
      rows[i].date < rows[j].date || (rows[i].date == rows[j].date && TypeRank(rows[i].kind) <= TypeRank(rows[j].kind))
  }

  /** The lexicographic (date, type) order and the single rank order agree. */
  lemma QueryOrderIsRankOrder(rows: seq<PinRow>)
    ensures InQueryOrder(rows) <==> forall i, j :: 0 <= i < j < |rows| ==> DateTypeRank(rows[i]) <= DateTypeRank(rows[j])
  {
    if !InQueryOrder(rows) {
      var i, j :| 0 <= i < j < |rows| && !(rows[i].date < rows[j].date || (rows[i].date == rows[j].date && TypeRank(rows[i].kind) <= TypeRank(rows[j].kind)));
      assert DateTypeRank(rows[i]) > DateTypeRank(rows[j]);
    }
  }

  /**
   * `getUserPins`: 404 for an unknown user; otherwise the query rows grouped
   * by window in first-appearance order, each row in exactly one group, and
   * totalPins the row count, which is also the sum of the group sizes.
   */
  method GetUserPins(users: map<Id, User>, userId: Id, rows: seq<PinRow>) returns (reply: Reply<UserPins>)
    ensures userId !in users <==> reply == Err(UserNotFound)
    ensures userId in users <==> reply.Ok?
    ensures reply.Ok? ==> reply.status == 200 && reply.body.userId == userId && reply.body.totalPins == |rows|
    ensures reply.Ok? ==> var gs := reply.body.data;
      && |gs| == |Keys(rows, WindowOf)|
      && (forall j :: 0 <= j < |gs| ==> gs[j].key == Keys(rows, WindowOf)[j])
      && SizeSum(gs) == reply.body.totalPins
      && (forall i :: 0 <= i < |rows| ==> exists j :: 0 <= j < |gs| && gs[j].key == rows[i].windowId && rows[i] in gs[j].members)
      && (forall j, y :: 0 <= j < |gs| && y in gs[j].members ==> y.windowId == gs[j].key)
      && (forall j, j' :: 0 <= j < j' < |gs| ==> gs[j].key != gs[j'].key)
      && (forall j :: 0 <= j < |gs| ==> gs[j].members == Members(rows, WindowOf, gs[j].key))
  {
    if userId !in users {
      return Err(UserNotFound);
    }
    var groups := GroupBy(rows, WindowOf);
    assert forall y :: WindowOf(y) == y.windowId;
    reply := Ok(200, UserPins(userId, groups, |rows|));
  }

  /** Within each group the pins keep the query's date-then-type order. */
  lemma GroupsKeepQueryOrder(rows: seq<PinRow>, k: Id)
    requires InQueryOrder(rows)
    ensures InQueryOrder(Members(rows, WindowOf, k))
  {
    QueryOrderIsRankOrder(rows);
    MembersKeepOrder(rows, WindowOf, DateTypeRank, k);
    QueryOrderIsRankOrder(Members(rows, WindowOf, k));
  }
}
