/**
 * The relational store the backend controllers read and write, held in
 * memory: five tables (users, invite tokens, shift windows, shifts, pins) and
 * the integrity rules the controllers keep at write time. Keys come from one
 * counter, so a new row's key is never in use.
 */
module Store {
  import opened Common

  datatype User = User(name: string, email: string, passwordHash: string, contractPercent: int, role: Role, createdAt: Time)

  datatype Invite = Invite(email: string, token: string, contractPercent: int, role: Role, used: bool, usedAt: Option<Time>, createdAt: Time)

  datatype Window = Window(name: string, startDate: Time, endDate: Time)

  datatype Shift = Shift(date: Time, kind: ShiftType, weight: Option<real>, windowId: Id)

  datatype Pin = Pin(userId: Id, shiftId: Id, createdAt: Time)

  predicate PercentInRange(p: int)
  {
    0 <= p <= 100
  }

  /** `prisma.user.findUnique({ where: { email } })` finds a row. */
  predicate EmailRegistered(users: map<Id, User>, email: string)
  {
    exists id :: id in users && users[id].email == email
  }

  /** `findFirst({ where: { email, used: false } })` finds a row. */
  predicate HasUnusedInvite(invites: map<Id, Invite>, email: string)
  {
    exists id :: id in invites && invites[id].email == email && !invites[id].used
  }

  /** The pin table holds the pair (userId, shiftId). */
  predicate Pinned(pins: seq<Pin>, userId: Id, shiftId: Id)
  {
    exists i :: 0 <= i < |pins| && pins[i].userId == userId && pins[i].shiftId == shiftId
  }

  /** Two shifts with the same (date, type, window) key. */
  predicate SameSlot(a: Shift, b: Shift)
  {
    a.date == b.date && a.kind == b.kind && a.windowId == b.windowId
  }

  /** Some stored shift has the (date, type, window) key of `s`. */
  predicate SlotTaken(shifts: map<Id, Shift>, s: Shift)
  {
    exists id :: id in shifts && SameSlot(shifts[id], s)
  }

  ghost predicate UsersValid(users: map<Id, User>)
  {
    && (forall a, b :: a in users && b in users && a != b ==> users[a].email != users[b].email)
    && (forall id :: id in users ==> PercentInRange(users[id].contractPercent))
  }

  ghost predicate InvitesValid(invites: map<Id, Invite>)
  {
    && (forall a, b :: a in invites && b in invites && a != b ==> invites[a].token != invites[b].token)
    && (forall a, b :: a in invites && b in invites && a != b && !invites[a].used && !invites[b].used ==>
          invites[a].email != invites[b].email)
    && (forall id :: id in invites ==> PercentInRange(invites[id].contractPercent))
    && (forall id :: id in invites ==> (invites[id].used <==> invites[id].usedAt.Some?))
  }

  ghost predicate WindowsValid(windows: map<Id, Window>)
  {
    forall id :: id in windows ==> windows[id].startDate < windows[id].endDate
  }

  ghost predicate ShiftsValid(shifts: map<Id, Shift>, windows: map<Id, Window>)
  {
    && (forall id :: id in shifts ==> shifts[id].windowId in windows)
    && (forall a, b :: a in shifts && b in shifts && a != b ==> !SameSlot(shifts[a], shifts[b]))
  }

  ghost predicate PinsValid(pins: seq<Pin>, users: map<Id, User>, shifts: map<Id, Shift>)
  {
    && (forall i :: 0 <= i < |pins| ==> pins[i].userId in users && pins[i].shiftId in shifts)
    && (forall i, j :: 0 <= i < j < |pins| ==>
          pins[i].userId != pins[j].userId || pins[i].shiftId != pins[j].shiftId)
  }

  class Db {
    var users: map<Id, User>
    var invites: map<Id, Invite>
    var windows: map<Id, Window>
    var shifts: map<Id, Shift>
    var pins: seq<Pin>
    /** The next key the store hands out; every key in use is below it. */
    var nextId: Id
    /** The weight the schema gives a shift created without one. */
    const defaultWeight: Option<real>

    /** The integrity rules every write keeps. */
    ghost predicate Valid()
      reads this
    {
      && UsersValid(users)
      && InvitesValid(invites)
      && WindowsValid(windows)
      && ShiftsValid(shifts, windows)
      && PinsValid(pins, users, shifts)
      && (forall id :: id in users ==> id < nextId)
      && (forall id :: id in invites ==> id < nextId)
      && (forall id :: id in windows ==> id < nextId)
      && (forall id :: id in shifts ==> id < nextId)
    }

    constructor (defaultWeight: Option<real>)
      ensures Valid()
      ensures users == map[] && invites == map[] && windows == map[] && shifts == map[] && pins == []
      ensures this.defaultWeight == defaultWeight
    {
      users, invites, windows, shifts, pins := map[], map[], map[], map[], [];
      nextId := 0;
      this.defaultWeight := defaultWeight;
    }

    /** `prisma.shiftWindow.create`: stores a window under a new key. */
    method InsertWindow(w: Window) returns (id: Id)
      requires Valid() && w.startDate < w.endDate
      modifies this`windows, this`nextId
      ensures Valid()
      ensures id == old(nextId) && nextId == id + 1 && id !in old(windows)
      ensures windows == old(windows)[id := w]
    {
      id := NewId();
      windows := windows[id := w];
    }

    /** `prisma.shift.create`: stores a shift of an existing window whose (date, type, window) is free. */
    method InsertShift(s: Shift) returns (id: Id)
      requires Valid() && s.windowId in windows && !SlotTaken(shifts, s)
      modifies this`shifts, this`nextId
      ensures Valid()
      ensures id == old(nextId) && nextId == id + 1 && id !in old(shifts)
      ensures shifts == old(shifts)[id := s]
    {
      id := NewId();
      forall a | a in shifts ensures !SameSlot(shifts[a], s) && !SameSlot(s, shifts[a])
      {
      }
      shifts := shifts[id := s];
    }

    /** Hands out a key that no table uses. */
    method NewId() returns (id: Id)
      requires Valid()
      modifies this`nextId
      ensures Valid()
      ensures id == old(nextId) && nextId == id + 1
      ensures id !in users && id !in invites && id !in windows && id !in shifts
    {
      id := nextId;
      nextId := nextId + 1;
    }
  }
}
