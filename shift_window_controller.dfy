/**
 * Shift windows: the bidding periods. Every stored window starts strictly
 * before it ends; creation and partial update both keep that, and deleting a
 * window takes its shifts and their pins with it.
 */
module ShiftWindowController {
  import opened Common
  import opened Store

  // ---------------------------------------------------------------------------
  // createShiftWindow
  // ---------------------------------------------------------------------------

  /** The answer of `createShiftWindow`: the first failing check, or 201 with the window to insert. */
  function CreateWindowDecision(name: Option<string>, startDate: DateField, endDate: DateField): (r: Reply<Window>)
    ensures r == Err(MissingFields) <==> !Given(name) || startDate.Falsy() || endDate.Falsy()
    ensures r == Err(InvalidDate) <==> (Given(name) && !startDate.Falsy() && !endDate.Falsy()
      && (startDate.Unparsable? || endDate.Unparsable?))
    ensures r == Err(StartNotBeforeEnd) <==> (Given(name) && startDate.Parsed? && endDate.Parsed? && startDate.t >= endDate.t)
    ensures r.Ok? <==> Given(name) && startDate.Parsed? && endDate.Parsed? && startDate.t < endDate.t
    ensures r.Ok? ==> r.status == 201 && r.body == Window(name.value, startDate.t, endDate.t)
  {
    if !Given(name) || startDate.Falsy() || endDate.Falsy() then Err(MissingFields)
    else if startDate.Unparsable? || endDate.Unparsable? then Err(InvalidDate)
    else if startDate.t >= endDate.t then Err(StartNotBeforeEnd)
    else Ok(201, Window(name.value, startDate.t, endDate.t))
  }

  /** `createShiftWindow`: inserts exactly one window, which starts before it ends. */
  method CreateShiftWindow(db: Db, name: Option<string>, startDate: DateField, endDate: DateField) returns (reply: Reply<(Id, Window)>)
    requires db.Valid()
    modifies db`windows, db`nextId
    ensures db.Valid()
    ensures var d := CreateWindowDecision(name, startDate, endDate);
      && (d.Err? ==> reply == Err(d.reason) && db.windows == old(db.windows))
      && (d.Ok? ==> (reply.Ok? && reply.status == 201 && reply.body.1 == d.body && reply.body.0 !in old(db.windows)
                     && db.windows == old(db.windows)[reply.body.0 := d.body]))
  {
    var d := CreateWindowDecision(name, startDate, endDate);
    if d.Err? {
      return Err(d.reason);
    }
    var id := db.InsertWindow(d.body);
    reply := Ok(201, (id, d.body));
  }

  // ---------------------------------------------------------------------------
  // updateShiftWindow
  // ---------------------------------------------------------------------------

  /** A supplied date field must parse; a left-out one is skipped. An empty string is supplied but does not parse. */
  predicate DateAcceptable(field: DateField)
  {
    field.Undefined? || field.Parsed?
  }

  /** The new value where one was supplied, else the stored one (a parsed date is always truthy). */
  function Merged(field: DateField, stored: Time): (t: Time)
    requires DateAcceptable(field)
    ensures field.Parsed? ==> t == field.t
    ensures field.Undefined? ==> t == stored
  {
    if field.Parsed? then field.t else stored
  }

  /**
   * The answer of `updateShiftWindow` for window `id`: 404, a 400 for a
   * supplied date that does not parse, a 400 when the merged range is empty,
   * or 200 with the updated window.
   */
  function UpdateWindowDecision(windows: map<Id, Window>, id: Id, name: Option<string>, startDate: DateField, endDate: DateField)
    : (r: Reply<Window>)
    ensures r == Err(WindowNotFound) <==> id !in windows
    ensures r == Err(InvalidDate) <==> id in windows && (!DateAcceptable(startDate) || !DateAcceptable(endDate))
    ensures r == Err(StartNotBeforeEnd) <==> (id in windows && DateAcceptable(startDate) && DateAcceptable(endDate)
      && Merged(startDate, windows[id].startDate) >= Merged(endDate, windows[id].endDate))
    ensures r.Ok? <==> (id in windows && DateAcceptable(startDate) && DateAcceptable(endDate)
      && Merged(startDate, windows[id].startDate) < Merged(endDate, windows[id].endDate))
    ensures r.Ok? ==> (r.status == 200 && id in windows && DateAcceptable(startDate) && DateAcceptable(endDate)
      && r.body.name == (if name.Some? then name.value else windows[id].name)
      && r.body.startDate == Merged(startDate, windows[id].startDate)
      && r.body.endDate == Merged(endDate, windows[id].endDate)
      && r.body.startDate < r.body.endDate)
  {
    if id !in windows then Err(WindowNotFound)
    else if !DateAcceptable(startDate) || !DateAcceptable(endDate) then Err(InvalidDate)
    else
      var w := windows[id];
      var start, end := Merged(startDate, w.startDate), Merged(endDate, w.endDate);
      if start >= end then Err(StartNotBeforeEnd)
      else Ok(200, Window(if name.Some? then name.value else w.name, start, end))
  }

  /** An update that supplies nothing returns the window unchanged. */
  lemma EmptyUpdateChangesNothing(windows: map<Id, Window>, id: Id)
    requires WindowsValid(windows) && id in windows
    ensures UpdateWindowDecision(windows, id, None, Undefined, Undefined) == Ok(200, windows[id])
  {
  }

  /**
   * Moving only the start is checked against the stored end: a new start on
   * or after the stored end is refused even though the request names one date.
   */
  lemma StartCheckedAgainstStoredEnd(windows: map<Id, Window>, id: Id, start: Time)
    requires id in windows
    ensures UpdateWindowDecision(windows, id, None, Parsed(start), Undefined).Ok? <==> start < windows[id].endDate
  {
  }

  /** Updating keeps every window's start before its end. */
  lemma UpdateKeepsWindowsValid(windows: map<Id, Window>, id: Id, name: Option<string>, startDate: DateField, endDate: DateField)
    requires WindowsValid(windows)
    requires UpdateWindowDecision(windows, id, name, startDate, endDate).Ok?
    ensures WindowsValid(windows[id := UpdateWindowDecision(windows, id, name, startDate, endDate).body])
  {
  }

  /** `updateShiftWindow`: rewrites one window, keeping the fields not supplied; a refusal changes nothing. */
  method UpdateShiftWindow(db: Db, id: Id, name: Option<string>, startDate: DateField, endDate: DateField) returns (reply: Reply<Window>)
    requires db.Valid()
    modifies db`windows
    ensures db.Valid()
    ensures reply == UpdateWindowDecision(old(db.windows), id, name, startDate, endDate)
    ensures reply.Err? ==> db.windows == old(db.windows)
    ensures reply.Ok? ==> db.windows == old(db.windows)[id := reply.body]
  {
    reply := UpdateWindowDecision(db.windows, id, name, startDate, endDate);
    if reply.Ok? {
      UpdateKeepsWindowsValid(db.windows, id, name, startDate, endDate);
      db.windows := db.windows[id := reply.body];
    }
  }

  // ---------------------------------------------------------------------------
  // deleteShiftWindow
  // ---------------------------------------------------------------------------

  /** The shifts that belong to window `id`. */
  function ShiftsIn(shifts: map<Id, Shift>, id: Id): (ids: set<Id>)
    ensures forall s :: s in ids <==> s in shifts && shifts[s].windowId == id
  {
    set s | s in shifts && shifts[s].windowId == id
  }

  /** The shift table once the shifts of window `id` are gone. */
  function ShiftsOutside(shifts: map<Id, Shift>, id: Id): (rest: map<Id, Shift>)
    ensures forall s :: s in rest <==> s in shifts && shifts[s].windowId != id
    ensures forall s :: s in rest ==> rest[s] == shifts[s]
  {
    map s | s in shifts && shifts[s].windowId != id :: shifts[s]
  }

  /** A pin survives when its shift is still stored. */
  function Survives(shifts: map<Id, Shift>): Pin -> bool
  {
    (p: Pin) => p.shiftId in shifts
  }

  /** The pins that survive, in their stored order. */
  function PinsOn(pins: seq<Pin>, shifts: map<Id, Shift>): seq<Pin>
  {
    Filter(pins, Survives(shifts))
  }

  /** Every shift is either deleted with the window or kept: the reported count is what the table loses. */
  lemma DeletedCountConserved(shifts: map<Id, Shift>, id: Id)
    ensures |ShiftsIn(shifts, id)| + |ShiftsOutside(shifts, id).Keys| == |shifts.Keys|
  {
    var gone, kept := ShiftsIn(shifts, id), ShiftsOutside(shifts, id).Keys;
    assert gone * kept == {};
    assert gone + kept == shifts.Keys;
  }

  /** Dropping pins keeps the remaining (user, shift) pairs distinct. */
  lemma {:induction false} FilteredPinsDistinct(pins: seq<Pin>, keep: Pin -> bool)
    requires forall i, j :: 0 <= i < j < |pins| ==> pins[i].userId != pins[j].userId || pins[i].shiftId != pins[j].shiftId
    ensures var r := Filter(pins, keep);
      forall i, j :: 0 <= i < j < |r| ==> r[i].userId != r[j].userId || r[i].shiftId != r[j].shiftId
  {
    if pins != [] {
      var front, x := pins[..|pins| - 1], pins[|pins| - 1];
      assert pins == front + [x];
      FilteredPinsDistinct(front, keep);
      FilterSnoc(front, x, keep);
      var rf, r := Filter(front, keep), Filter(pins, keep);
      forall i, j | 0 <= i < j < |r| ensures r[i].userId != r[j].userId || r[i].shiftId != r[j].shiftId
      {
        if j == |rf| {
          var k :| 0 <= k < |front| && front[k] == rf[i];
          assert pins[k] == r[i] && pins[|pins| - 1] == r[j];
        } else {
          assert r[i] == rf[i] && r[j] == rf[j];
        }
      }
    }
  }

  /** The cascade leaves a consistent store: no shift points at the deleted window, no pin at a deleted shift. */
  lemma CascadeKeepsValid(users: map<Id, User>, windows: map<Id, Window>, shifts: map<Id, Shift>, pins: seq<Pin>, id: Id)
    requires WindowsValid(windows) && ShiftsValid(shifts, windows) && PinsValid(pins, users, shifts)
    ensures var rest := ShiftsOutside(shifts, id);
      && WindowsValid(windows - {id})
      && ShiftsValid(rest, windows - {id})
      && PinsValid(PinsOn(pins, rest), users, rest)
  {
    var rest := ShiftsOutside(shifts, id);
    var keep := Survives(rest);
    FilteredPinsDistinct(pins, keep);
    var r := PinsOn(pins, rest);
    assert r == Filter(pins, keep);
    forall i | 0 <= i < |r| ensures r[i].userId in users && r[i].shiftId in rest
    {
      assert r[i] in pins && keep(r[i]);
    }
  }

  /**
   * `deleteShiftWindow`: 404 for an unknown window; otherwise the window, its
   * shifts and the pins on them are removed, everything else stays, and the
   * reply counts the shifts the window held.
   */
  method DeleteShiftWindow(db: Db, id: Id) returns (reply: Reply<nat>)
    requires db.Valid()
    modifies db`windows, db`shifts, db`pins
    ensures db.Valid()
    ensures id !in old(db.windows) <==> reply == Err(WindowNotFound)
    ensures id in old(db.windows) <==> reply.Ok?
    ensures reply.Err? ==> db.windows == old(db.windows) && db.shifts == old(db.shifts) && db.pins == old(db.pins)
    ensures reply.Ok? ==> (reply.status == 200
      && db.windows == old(db.windows) - {id}
      && db.shifts == ShiftsOutside(old(db.shifts), id)
      && db.pins == PinsOn(old(db.pins), db.shifts)
      && reply.body == |ShiftsIn(old(db.shifts), id)| == |old(db.shifts).Keys| - |db.shifts.Keys|)
  {
    if id !in db.windows {
      return Err(WindowNotFound);
    }
    var deleted := |ShiftsIn(db.shifts, id)|;
    DeletedCountConserved(db.shifts, id);
    CascadeKeepsValid(db.users, db.windows, db.shifts, db.pins, id);
    var rest := ShiftsOutside(db.shifts, id);
    db.windows := db.windows - {id};
    db.pins := PinsOn(db.pins, rest);
    db.shifts := rest;
    reply := Ok(200, deleted);
  }

  /** Once deleted, the window cannot be updated any more: 404. */
  lemma DeletedWindowNotFound(windows: map<Id, Window>, id: Id, name: Option<string>, startDate: DateField, endDate: DateField)
    ensures UpdateWindowDecision(windows - {id}, id, name, startDate, endDate) == Err(WindowNotFound)
  {
  }
}
