/**
 * The seed script: make sure an administrator exists by promoting the
 * oldest user when there is none, and, when no shift window exists, create
 * "Current Week" and "Next Week" with ten sample shifts each (Monday to
 * Friday, an EARLY and a LATE shift per day). The clock is a parameter: the
 * current instant and its day of the week (0 for Sunday, as `getDay`).
 */
module Seed {
  import opened Common
  import opened Store

  // ---------------------------------------------------------------------------
  // Administrator
  // ---------------------------------------------------------------------------

  predicate HasAdmin(users: map<Id, User>)
  {
    exists id :: id in users && users[id].role == ADMIN
  }

  /** `findFirst({ orderBy: { createdAt: 'asc' } })` may return `id`: no user was created before it. */
  predicate Oldest(users: map<Id, User>, id: Id)
  {
    id in users && forall o :: o in users ==> users[id].createdAt <= users[o].createdAt
  }

  /** Scans the user table for a user created first. */
  method OldestUser(users: map<Id, User>) returns (id: Id)
    requires users != map[]
    ensures Oldest(users, id)
  {
    var rest := users.Keys;
    assert users.Keys != {} by {
      var k :| k in users;
    }
    id :| id in rest;
    rest := rest - {id};
    while rest != {}
      invariant rest <= users.Keys && id in users
      invariant forall o :: o in users && o !in rest ==> users[id].createdAt <= users[o].createdAt
      decreases |rest|
    {
      var o :| o in rest;
      if users[o].createdAt < users[id].createdAt {
        id := o;
      }
      rest := rest - {o};
    }
  }

  /** Changing a role keeps the user table valid. */
  lemma PromotionKeepsUsersValid(users: map<Id, User>, id: Id)
    requires UsersValid(users) && id in users
    ensures UsersValid(users[id := users[id].(role := ADMIN)])
  {
    var t := users[id := users[id].(role := ADMIN)];
    forall a, b | a in t && b in t && a != b ensures t[a].email != t[b].email
    {
      assert t[a].email == users[a].email && t[b].email == users[b].email;
    }
  }

  /**
   * The first half of the script: with no ADMIN and at least one user,
   * exactly one user, an oldest one, becomes ADMIN and nothing else changes;
   * with an ADMIN already present, or no users, the table is left alone.
   * Either way afterwards there is an ADMIN unless there are no users.
   */
  method PromoteFirstAdmin(db: Db) returns (promoted: Option<Id>)
    requires db.Valid()
    modifies db`users
    ensures db.Valid()
    ensures promoted.None? <==> HasAdmin(old(db.users)) || old(db.users) == map[]
    ensures promoted.None? ==> db.users == old(db.users)
    ensures promoted.Some? ==> (Oldest(old(db.users), promoted.value)
      && db.users == old(db.users)[promoted.value := old(db.users)[promoted.value].(role := ADMIN)]
      && forall id :: id in db.users ==> (db.users[id].role == ADMIN <==> id == promoted.value))
    ensures HasAdmin(db.users) || db.users == map[]
  {
    if HasAdmin(db.users) || db.users == map[] {
      return None;
    }
    var id := OldestUser(db.users);
    PromotionKeepsUsersValid(db.users, id);
    db.users := db.users[id := db.users[id].(role := ADMIN)];
    assert db.users[id].role == ADMIN;
    promoted := Some(id);
  }

  // ---------------------------------------------------------------------------
  // Sample windows and shifts
  // ---------------------------------------------------------------------------

  /** `['EARLY', 'LATE']`, in the order the inner loop visits them. */
  const SHIFT_TYPES: seq<ShiftType> := [EARLY, LATE]

  /** The sample weight: EARLY shifts count more. */
  function SeedWeight(kind: ShiftType): (w: real)
    ensures kind == EARLY ==> w == 1.2
    ensures kind == LATE ==> w == 1.0
  {
    if kind == EARLY then 1.2 else 1.0
  }

  /** `now` moved to the Monday of `getDay() - 1` days ago: `setDate(getDate() - getDay() + 1)`. */
  function WeekStart(now: Time, weekday: int): Time
  {
    now + (1 - weekday) * DAY_MS
  }

  /** The day of the week `days` days after a day whose `getDay()` is `weekday`. */
  function WeekdayAfter(weekday: int, days: int): int
  {
    (weekday + days) % 7
  }

  /** The first window starts on a Monday; on a Sunday that Monday is tomorrow, on any other day it is today or earlier. */
  lemma WeekStartIsMonday(now: Time, weekday: int)
    requires 0 <= weekday <= 6
    ensures WeekdayAfter(weekday, 1 - weekday) == 1
    ensures weekday == 0 ==> WeekStart(now, weekday) == now + DAY_MS
    ensures weekday != 0 ==> WeekStart(now, weekday) <= now
  {
  }

  /** The ten sample shifts of the week starting at `start`, in creation order: day by day, EARLY then LATE. */
  function WeekShifts(windowId: Id, start: Time): (xs: seq<Shift>)
    ensures |xs| == 10
    ensures forall i :: 0 <= i < 10 ==> xs[i].windowId == windowId
  {
    seq(10, i requires 0 <= i < 10 =>
      Shift(start + (i / 2) * DAY_MS, SHIFT_TYPES[i % 2], Some(SeedWeight(SHIFT_TYPES[i % 2])), windowId))
  }

  /** The sample made on day `day` of the week for the `j`-th shift type. */
  lemma WeekShiftAt(windowId: Id, start: Time, day: int, j: int)
    requires 0 <= day < 5 && 0 <= j < 2
    ensures WeekShifts(windowId, start)[2 * day + j]
      == Shift(start + day * DAY_MS, SHIFT_TYPES[j], Some(SeedWeight(SHIFT_TYPES[j])), windowId)
  {
    var n := 2 * day + j;
    assert n / 2 == day && n % 2 == j;
  }

  /** Every sample shift lies on one of the first five days of its week, Monday to Friday. */
  lemma SampleShiftsOnWeekdays(weekday: int, i: int)
    requires 0 <= weekday <= 6 && 0 <= i < 10
    ensures 1 <= WeekdayAfter(weekday, 1 - weekday + i / 2) <= 5
  {
  }

  /** Each sample shift falls inside a window spanning its week: [start, start + 6 days]. */
  lemma SampleShiftsInWindow(windowId: Id, start: Time, i: int)
    requires 0 <= i < 10
    ensures start <= WeekShifts(windowId, start)[i].date <= start + 6 * DAY_MS
  {
  }

  /** No two sample shifts of a week share (date, type, window). */
  lemma SampleSlotsDistinct(windowId: Id, start: Time, m: int, n: int)
    requires 0 <= m < n < 10
    ensures !SameSlot(WeekShifts(windowId, start)[m], WeekShifts(windowId, start)[n])
  {
  }

  /** Rows no two of which share (date, type, window). */
  ghost predicate SlotsDistinct(xs: seq<Shift>)
  {
    forall m, n :: 0 <= m < n < |xs| ==> !SameSlot(xs[m], xs[n])
  }

  /** Rows that all belong to window `w`. */
  predicate AllOfWindow(xs: seq<Shift>, w: Id)
  {
    forall i :: 0 <= i < |xs| ==> xs[i].windowId == w
  }

  /** A week's samples are rows of its window with pairwise distinct slots. */
  lemma WeekShiftsDistinct(windowId: Id, start: Time)
    ensures SlotsDistinct(WeekShifts(windowId, start)) && AllOfWindow(WeekShifts(windowId, start), windowId)
  {
    forall m, n | 0 <= m < n < 10 ensures !SameSlot(WeekShifts(windowId, start)[m], WeekShifts(windowId, start)[n])
    {
      SampleSlotsDistinct(windowId, start, m, n);
    }
  }

  /** The keys `first`, `first + 1`, ..., `first + n - 1`. */
  function {:induction false} Span(first: Id, n: nat): (ids: set<Id>)
    ensures forall id :: id in ids <==> first <= id < first + n
    ensures |ids| == n
  {
    if n == 0 then {}
    else
      var ids := Span(first, n - 1);
      assert first + n - 1 !in ids;
      ids + {first + n - 1}
  }

  /** The first `n` rows of `xs` stored under consecutive keys from `first`, one key per row. */
  function Rows(first: Id, xs: seq<Shift>, n: nat): (t: map<Id, Shift>)
    requires n <= |xs|
    ensures forall id :: id in t <==> first <= id < first + n
    ensures forall id :: id in t ==> t[id] == xs[id - first]
  {
    map id | id in Span(first, n) :: xs[id - first]
  }

  /** All rows `xs` stored under consecutive keys from `first`. */
  function Table(first: Id, xs: seq<Shift>): (t: map<Id, Shift>)
    ensures forall id :: id in t <==> first <= id < first + |xs|
    ensures forall id :: id in t ==> t[id] == xs[id - first]
  {
    Rows(first, xs, |xs|)
  }

  /** A table holds one row per key. */
  lemma TableSize(first: Id, xs: seq<Shift>)
    ensures |Table(first, xs)| == |xs|
  {
    assert Table(first, xs).Keys == Span(first, |xs|);
  }

  /** One more row is one more key. */
  lemma RowsStep(base: map<Id, Shift>, first: Id, xs: seq<Shift>, n: nat)
    requires n < |xs|
    ensures base + Rows(first, xs, n + 1) == (base + Rows(first, xs, n))[first + n := xs[n]]
  {
    var t := Rows(first, xs, n);
    assert Rows(first, xs, n + 1) == t[first + n := xs[n]];
    UnionUpdate(base, t, first + n, xs[n]);
  }

  /** The empty table adds nothing to a union. */
  lemma EmptyUnion(t: map<Id, Shift>)
    ensures map[] + t == t
  {
  }

  /** Updating the right operand of a union updates the union. */
  lemma UnionUpdate(a: map<Id, Shift>, b: map<Id, Shift>, k: Id, v: Shift)
    ensures a + b[k := v] == (a + b)[k := v]
  {
  }

  /** The next row's slot is free in a table holding other windows' shifts and the rows before it. */
  lemma NextSlotFree(base: map<Id, Shift>, first: Id, xs: seq<Shift>, w: Id, n: nat)
    requires n < |xs| && SlotsDistinct(xs) && AllOfWindow(xs, w)
    requires forall id :: id in base ==> base[id].windowId != w
    ensures !SlotTaken(base + Rows(first, xs, n), xs[n])
  {
    var front := Rows(first, xs, n);
    var t := base + front;
    forall id | id in t ensures !SameSlot(t[id], xs[n])
    {
      if id in front {
        assert t[id] == xs[id - first];
      } else {
        assert t[id] == base[id];
      }
    }
  }

  /** The shift table holds `base` and, under the keys handed out since `first`, the leading rows of `xs`. */
  ghost predicate Filled(db: Db, base: map<Id, Shift>, first: Id, xs: seq<Shift>)
    reads db
  {
    first <= db.nextId <= first + |xs| && db.shifts == base + Rows(first, xs, db.nextId - first)
  }

  /**
   * One `prisma.shift.create` of the inner loop: the sample for day `day`
   * and the `j`-th type, stored after the ones created before it.
   */
  method AddSample(db: Db, ghost base: map<Id, Shift>, ghost first: Id, windowId: Id, start: Time, day: int, j: int, ghost xs: seq<Shift>)
    requires 0 <= day < 5 && 0 <= j < 2
    requires xs == WeekShifts(windowId, start) && SlotsDistinct(xs) && AllOfWindow(xs, windowId)
    requires db.Valid() && windowId in db.windows && db.nextId == first + 2 * day + j
    requires forall id :: id in base ==> base[id].windowId != windowId
    requires Filled(db, base, first, xs)
    modifies db`shifts, db`nextId
    ensures db.Valid() && db.nextId == old(db.nextId) + 1
    ensures Filled(db, base, first, xs)
  {
    ghost var n := 2 * day + j;
    assert db.nextId - first == n;
    var kind := SHIFT_TYPES[j];
    var shift := Shift(start + day * DAY_MS, kind, Some(SeedWeight(kind)), windowId);
    WeekShiftAt(windowId, start, day, j);
    assert shift == xs[n];
    NextSlotFree(base, first, xs, windowId, n);
    RowsStep(base, first, xs, n);
    ghost var before := db.shifts;
    var id := db.InsertShift(shift);
    assert db.shifts == before[first + n := xs[n]];
    assert db.nextId - first == n + 1;
  }

  /** The inner loop for day `day`: one sample per shift type. */
  method AddDay(db: Db, ghost base: map<Id, Shift>, ghost first: Id, windowId: Id, start: Time, day: int, ghost xs: seq<Shift>)
    requires 0 <= day < 5
    requires xs == WeekShifts(windowId, start) && SlotsDistinct(xs) && AllOfWindow(xs, windowId)
    requires db.Valid() && windowId in db.windows && db.nextId == first + 2 * day
    requires forall id :: id in base ==> base[id].windowId != windowId
    requires Filled(db, base, first, xs)
    modifies db`shifts, db`nextId
    ensures db.Valid() && db.nextId == old(db.nextId) + 2
    ensures Filled(db, base, first, xs)
  {
    for j := 0 to |SHIFT_TYPES|
      invariant db.Valid() && windowId in db.windows && db.nextId == first + 2 * day + j
      invariant Filled(db, base, first, xs)
    {
      AddSample(db, base, first, windowId, start, day, j, xs);
    }
  }

  /** Runs the day loop for one window, inserting its ten sample shifts. */
  method AddWeek(db: Db, windowId: Id, start: Time, ghost first: Id)
    requires db.Valid() && windowId in db.windows && db.nextId == first
    requires forall id :: id in db.shifts ==> db.shifts[id].windowId != windowId
    modifies db`shifts, db`nextId
    ensures db.Valid()
    ensures db.nextId == first + 10
    ensures db.shifts == old(db.shifts) + Table(first, WeekShifts(windowId, start))
  {
    ghost var base := db.shifts;
    ghost var xs := WeekShifts(windowId, start);
    WeekShiftsDistinct(windowId, start);
    assert db.shifts == base + Rows(first, xs, 0);
    for day := 0 to 5
      invariant db.Valid() && windowId in db.windows && db.nextId == first + 2 * day
      invariant Filled(db, base, first, xs)
    {
      AddDay(db, base, first, windowId, start, day, xs);
    }
    assert db.nextId - first == |xs|;
  }

  /** The two sample windows' bounds, from the week start. */
  function CurrentWeek(start: Time): (w: Window)
    ensures w.startDate < w.endDate
  {
    Window("Current Week", start, start + 6 * DAY_MS)
  }

  function NextWeek(start: Time): (w: Window)
    ensures w.startDate < w.endDate
    ensures w.startDate == CurrentWeek(start).startDate + 7 * DAY_MS
    ensures w.startDate > CurrentWeek(start).endDate
  {
    Window("Next Week", start + 7 * DAY_MS, start + 13 * DAY_MS)
  }

  /** Two tables on disjoint key ranges hold as many rows together as apart. */
  lemma DisjointTablesSize(a: Id, xs: seq<Shift>, b: Id, ys: seq<Shift>)
    requires a + |xs| <= b
    ensures |Table(a, xs) + Table(b, ys)| == |xs| + |ys|
  {
    var t, u := Table(a, xs), Table(b, ys);
    TableSize(a, xs);
    TableSize(b, ys);
    assert (t + u).Keys == t.Keys + u.Keys;
    assert t.Keys * u.Keys == {};
  }

  /**
   * The sample shifts of both windows: ten rows for the current week under
   * ids `first` onwards, then ten for the next week.
   */
  function Samples(first: Id, cur: Id, next: Id, start: Time): (t: map<Id, Shift>)
    ensures |t| == 20
  {
    DisjointTablesSize(first, WeekShifts(cur, start), first + 10, WeekShifts(next, start + 7 * DAY_MS));
    Table(first, WeekShifts(cur, start)) + Table(first + 10, WeekShifts(next, start + 7 * DAY_MS))
  }

  /** Every row of a table built from one window's rows belongs to that window. */
  lemma TableOfWindow(first: Id, xs: seq<Shift>, w: Id)
    requires AllOfWindow(xs, w)
    ensures forall id :: id in Table(first, xs) ==> Table(first, xs)[id].windowId == w
  {
  }

  /** The second inner loop: ten samples for window `next` after the ten of window `cur`. */
  method AddSecondWeek(db: Db, cur: Id, next: Id, start: Time, ghost first: Id)
    requires db.Valid() && next in db.windows && cur != next && db.nextId == first + 10
    requires db.shifts == Table(first, WeekShifts(cur, start))
    modifies db`shifts, db`nextId
    ensures db.Valid() && db.nextId == first + 20
    ensures db.shifts == Samples(first, cur, next, start)
  {
    WeekShiftsDistinct(cur, start);
    TableOfWindow(first, WeekShifts(cur, start), cur);
    AddWeek(db, next, start + 7 * DAY_MS, first + 10);
  }

  /** The two inner loops of the script: ten samples for window `cur`, then ten for window `next`, in an empty shift table. */
  method AddWeeks(db: Db, cur: Id, next: Id, start: Time)
    requires db.Valid() && cur in db.windows && next in db.windows && cur != next && db.shifts == map[]
    requires db.nextId == next + 1
    modifies db`shifts, db`nextId
    ensures db.Valid() && db.nextId == next + 21
    ensures db.shifts == Samples(next + 1, cur, next, start)
  {
    ghost var first := next + 1;
    ghost var t1 := Table(first, WeekShifts(cur, start));
    AddWeek(db, cur, start, first);
    assert db.shifts == t1 by {
      EmptyUnion(t1);
    }
    AddSecondWeek(db, cur, next, start, first);
  }

  /** Creates the two sample windows, then their shifts, in an empty window table. */
  method CreateSamples(db: Db, start: Time) returns (cur: Id, next: Id)
    requires db.Valid() && db.windows == map[]
    modifies db`windows, db`shifts, db`nextId
    ensures db.Valid()
    ensures db.windows == map[cur := CurrentWeek(start), next := NextWeek(start)]
    ensures cur == old(db.nextId) && next == cur + 1
    ensures db.shifts == Samples(next + 1, cur, next, start)
  {
    assert db.shifts == map[] by {
      assert forall id :: id !in db.shifts;
    }
    cur := db.InsertWindow(CurrentWeek(start));
    next := db.InsertWindow(NextWeek(start));
    AddWeeks(db, cur, next, start);
  }

  /**
   * The second half of the script: when no window exists, two windows and
   * twenty shifts are created (ten per window); otherwise nothing changes.
   */
  method SeedWindows(db: Db, now: Time, weekday: int) returns (created: Option<(Id, Id)>)
    requires db.Valid() && 0 <= weekday <= 6
    modifies db`windows, db`shifts, db`nextId
    ensures db.Valid()
    ensures created.None? <==> old(db.windows) != map[]
    ensures created.None? ==> db.windows == old(db.windows) && db.shifts == old(db.shifts)
    ensures created.Some? ==> (var (cur, next) := created.value; var start := WeekStart(now, weekday);
      && db.windows == map[cur := CurrentWeek(start), next := NextWeek(start)]
      && db.shifts == Samples(next + 1, cur, next, start)
)
  {
    if db.windows != map[] {
      return None;
    }
    var cur, next := CreateSamples(db, WeekStart(now, weekday));
    created := Some((cur, next));
  }

  /** The script has done its work: an ADMIN exists unless there are no users, and some window exists. */
  predicate Seeded(users: map<Id, User>, windows: map<Id, Window>)
  {
    (HasAdmin(users) || users == map[]) && windows != map[]
  }

  /** The whole script. A second run right after a first one changes nothing. */
  method Seed(db: Db, now: Time, weekday: int)
    requires db.Valid() && 0 <= weekday <= 6
    modifies db`users, db`windows, db`shifts, db`nextId
    ensures db.Valid()
    ensures Seeded(db.users, db.windows)
    ensures Seeded(old(db.users), old(db.windows)) ==>
      db.users == old(db.users) && db.windows == old(db.windows) && db.shifts == old(db.shifts)
  {
    var promoted := PromoteFirstAdmin(db);
    var created := SeedWindows(db, now, weekday);
  }
}
