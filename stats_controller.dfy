/**
 * Statistics: a user's pin summary (`GetUserStats`: weighted average, quota
 * simulation, per-window tallies) and the admin dashboard (`AdminDashboard`:
 * popularity heatmap, unpinned shifts, per-window rollups, top users).
 * Both are folds over query rows; the rows arrive as the store's query
 * results.
 */
module StatsController {
  import opened Common
  import opened Store
  import opened Grouping

  // ---------------------------------------------------------------------------
  // getUserStats: average shift weight
  // ---------------------------------------------------------------------------

  /** One row of the user's pin query: the pinned shift's weight and window. */
  datatype StatRow = StatRow(weight: Option<real>, windowId: Id, windowName: string)

  /** `pin.shift.weight != null` */
  predicate Weighted(row: StatRow)
  {
    row.weight.Some?
  }

  /** The sum of the non-null weights. */
  function WeightSum(rows: seq<StatRow>): real
  {
    if rows == [] then 0.0
    else
      var last := rows[|rows| - 1];
      WeightSum(rows[..|rows| - 1]) + (if last.weight.Some? then last.weight.value else 0.0)
  }

  /** Number of rows with a weight. */
  function WeightedCount(rows: seq<StatRow>): nat
  {
    if rows == [] then 0
    else WeightedCount(rows[..|rows| - 1]) + (if Weighted(rows[|rows| - 1]) then 1 else 0)
  }

  /** The weighted rows, as `pins.filter(...)` keeps them, are as many as `WeightedCount` says and have the same weight sum. */
  lemma {:induction false} WeightedFilter(rows: seq<StatRow>)
    ensures |Filter(rows, Weighted)| == WeightedCount(rows)
    ensures WeightSum(Filter(rows, Weighted)) == WeightSum(rows)
  {
    if rows != [] {
      var front, last := rows[..|rows| - 1], rows[|rows| - 1];
      WeightedFilter(front);
      var fs := Filter(front, Weighted);
      assert Filter(rows, Weighted) == fs + (if Weighted(last) then [last] else []);
      if Weighted(last) {
        var gs := fs + [last];
        assert gs[..|gs| - 1] == fs && gs[|gs| - 1] == last;
        assert WeightSum(gs) == WeightSum(fs) + last.weight.value;
        assert WeightSum(rows) == WeightSum(front) + last.weight.value;
      } else {
        assert Filter(rows, Weighted) == fs;
        assert WeightSum(rows) == WeightSum(front);
      }
    }
  }

  /** No weighted row means no weighted count, and conversely. */
  lemma {:induction false} NoWeightedRows(rows: seq<StatRow>)
    ensures WeightedCount(rows) == 0 <==> forall i :: 0 <= i < |rows| ==> rows[i].weight.None?
  {
    if rows != [] {
      var front := rows[..|rows| - 1];
      NoWeightedRows(front);
      assert forall i :: 0 <= i < |front| ==> front[i] == rows[i];
    }
  }

  /**
   * averageShiftWeight: null exactly when no pinned shift has a weight;
   * otherwise the sum of the weights over the number of weighted pins.
   */
  function AverageShiftWeight(rows: seq<StatRow>): (avg: Option<real>)
    ensures avg.None? <==> forall i :: 0 <= i < |rows| ==> rows[i].weight.None?
    ensures avg.Some? ==> WeightedCount(rows) > 0 && avg.value == WeightSum(rows) / WeightedCount(rows) as real
  {
    var weighted := Filter(rows, Weighted);
    WeightedFilter(rows);
    NoWeightedRows(rows);
    if |weighted| > 0 then Some(WeightSum(weighted) / |weighted| as real) else None
  }

  lemma BoundStep(lo: real, hi: real, n: real, s: real, w: real)
    requires lo * n <= s <= hi * n && lo <= w <= hi
    ensures lo * (n + 1.0) <= s + w <= hi * (n + 1.0)
  {
    assert lo * (n + 1.0) == lo * n + lo;
    assert hi * (n + 1.0) == hi * n + hi;
  }

  /** Weights in [lo, hi] sum to between lo and hi times their count. */
  lemma {:induction false} WeightSumBounds(rows: seq<StatRow>, lo: real, hi: real)
    requires forall i :: 0 <= i < |rows| && rows[i].weight.Some? ==> lo <= rows[i].weight.value <= hi
    ensures lo * WeightedCount(rows) as real <= WeightSum(rows) <= hi * WeightedCount(rows) as real
  {
    if rows != [] {
      var front, last := rows[..|rows| - 1], rows[|rows| - 1];
      assert forall i :: 0 <= i < |front| ==> front[i] == rows[i];
      WeightSumBounds(front, lo, hi);
      var n, s := WeightedCount(front) as real, WeightSum(front);
      if Weighted(last) {
        assert WeightSum(rows) == s + last.weight.value;
        assert WeightedCount(rows) as real == n + 1.0;
        BoundStep(lo, hi, n, s, last.weight.value);
      } else {
        assert WeightSum(rows) == s;
        assert WeightedCount(rows) as real == n;
      }
    }
  }

  lemma DivideBounds(lo: real, hi: real, s: real, n: real)
    requires n > 0.0 && lo * n <= s <= hi * n
    ensures lo <= s / n <= hi
  {
  }

  lemma AverageBetween(rows: seq<StatRow>, lo: real, hi: real, a: real)
    requires forall i :: 0 <= i < |rows| && rows[i].weight.Some? ==> lo <= rows[i].weight.value <= hi
    requires WeightedCount(rows) > 0 && a == WeightSum(rows) / WeightedCount(rows) as real
    ensures lo <= a <= hi
  {
    WeightSumBounds(rows, lo, hi);
    DivideBounds(lo, hi, WeightSum(rows), WeightedCount(rows) as real);
  }

  /** The average lies between the smallest and the largest weight. */
  lemma AverageWithinBounds(rows: seq<StatRow>, lo: real, hi: real)
    requires forall i :: 0 <= i < |rows| && rows[i].weight.Some? ==> lo <= rows[i].weight.value <= hi
    ensures var avg := AverageShiftWeight(rows); avg.Some? ==> lo <= avg.value <= hi
  {
    var avg := AverageShiftWeight(rows);
    if avg.Some? {
      AverageBetween(rows, lo, hi, avg.value);
    }
  }

  // ---------------------------------------------------------------------------
  // getUserStats: quota simulation
  // ---------------------------------------------------------------------------

  /** Shifts per period at a 100% contract. */
  const FULL_TIME_SHIFTS: int := 40

  /** `Math.round((contractPercent / 100) * 40)` */
  function ExpectedShifts(contractPercent: int): int
  {
    Round(contractPercent as real / 100.0 * FULL_TIME_SHIFTS as real)
  }

  /**
   * The rounding needs no real arithmetic: the expected count is
   * (4·cp + 5) div 10, and for a percent in [0, 100] it lies in [0, 40].
   */
  lemma ExpectedShiftsIntegral(cp: int)
    ensures ExpectedShifts(cp) == (4 * cp + 5) / 10
    ensures 0 <= cp <= 100 ==> 0 <= ExpectedShifts(cp) <= FULL_TIME_SHIFTS
  {
    var y := (4 * cp + 5) / 10;
    var x := cp as real / 100.0 * 40.0 + 0.5;
    assert x == (4 * cp + 5) as real / 10.0;
    assert 10 * y <= 4 * cp + 5 < 10 * y + 10;
    assert y as real <= x < y as real + 1.0;
  }

  /** A larger contract never expects fewer shifts. */
  lemma ExpectedShiftsMonotone(a: int, b: int)
    requires a <= b
    ensures ExpectedShifts(a) <= ExpectedShifts(b)
  {
    ExpectedShiftsIntegral(a);
    ExpectedShiftsIntegral(b);
  }

  datatype QuotaSimulation = QuotaSimulation(contractPercent: int, expectedShifts: int, currentPins: nat,
                                             met: bool, remainingNeeded: int, overQuota: int)

  /**
   * The quota block: "met" iff the pins reach the expected count; the
   * shortfall and the excess are never negative, at most one is positive,
   * and their difference is expected minus current.
   */
  function Quota(contractPercent: int, totalPins: nat): (q: QuotaSimulation)
    ensures q.contractPercent == contractPercent && q.currentPins == totalPins
    ensures q.expectedShifts == ExpectedShifts(contractPercent)
    ensures q.met <==> totalPins >= q.expectedShifts
    ensures q.met <==> q.remainingNeeded == 0
    ensures q.remainingNeeded >= 0 && q.overQuota >= 0 && (q.remainingNeeded == 0 || q.overQuota == 0)
    ensures q.remainingNeeded - q.overQuota == q.expectedShifts - totalPins
  {
    var expected := ExpectedShifts(contractPercent);
    QuotaSimulation(contractPercent, expected, totalPins, totalPins >= expected,
                    Max(0, expected - totalPins), Max(0, totalPins - expected))
  }

  function Max(a: int, b: int): int
  {
    if a >= b then a else b
  }

  // ---------------------------------------------------------------------------
  // getUserStats: pins by window
  // ---------------------------------------------------------------------------

  datatype WindowTally = WindowTally(windowId: Id, windowName: string, pins: nat, totalWeight: real, averageWeight: real)

  function RowWindow(row: StatRow): Id
  {
    row.windowId
  }

  /** The entry a window's first row creates. */
  function NewTally(row: StatRow): WindowTally
  {
    WindowTally(row.windowId, row.windowName, 0, 0.0, 0.0)
  }

  /**
   * One row's update: count the pin; when it has a weight, add it and
   * recompute the average over all pins counted so far.
   */
  function TallyStep(t: WindowTally, row: StatRow): WindowTally
  {
    var pins := t.pins + 1;
    if row.weight.Some? then
      var total := t.totalWeight + row.weight.value;
      t.(pins := pins, totalWeight := total, averageWeight := total / pins as real)
    else t.(pins := pins)
  }

  /** The rows up to and including the last weighted one (empty if none is weighted). */
  function UpToLastWeighted(rows: seq<StatRow>): (p: seq<StatRow>)
    ensures p <= rows
  {
    if rows == [] then []
    else if Weighted(rows[|rows| - 1]) then rows
    else UpToLastWeighted(rows[..|rows| - 1])
  }

  /**
   * A window's tally counts its pins and sums its weights; the average it
   * reports is the weight sum over the number of pins up to the last
   * weighted one, so unweighted pins before that point dilute it and those
   * after it do not.
   */
  lemma {:induction false} TallyOfGroup(first: StatRow, ms: seq<StatRow>)
    ensures var t := Fold(NewTally(first), ms, TallyStep);
      && t.windowId == first.windowId && t.windowName == first.windowName
      && t.pins == |ms|
      && t.totalWeight == WeightSum(ms)
      && t.averageWeight == (var p := UpToLastWeighted(ms); if p == [] then 0.0 else WeightSum(p) / |p| as real)
  {
    if ms != [] {
      var front, last := ms[..|ms| - 1], ms[|ms| - 1];
      TallyOfGroup(first, front);
    }
  }

  /**
   * The reported average depends on row order: a weighted pin of 1.0 and an
   * unweighted pin in the same window average 1.0 when the weighted one
   * comes first and 0.5 when it comes second.
   */
  lemma AverageDependsOnOrder(w: Id)
    ensures var a := StatRow(Some(1.0), w, "W");
      var b := StatRow(None, w, "W");
      && Fold(NewTally(a), [a, b], TallyStep).averageWeight == 1.0
      && Fold(NewTally(b), [b, a], TallyStep).averageWeight == 0.5
  {
    var a := StatRow(Some(1.0), w, "W");
    var b := StatRow(None, w, "W");
    assert [a, b][..1] == [a];
    assert [b, a][..1] == [b];
    assert [a][..0] == [];
    assert [b][..0] == [];
    assert Fold(NewTally(a), [a], TallyStep) == WindowTally(w, "W", 1, 1.0, 1.0);
    assert Fold(NewTally(b), [b], TallyStep) == WindowTally(w, "W", 1, 0.0, 0.0);
  }

  function TallyPins(ts: seq<WindowTally>): nat
  {
    if ts == [] then 0 else ts[0].pins + TallyPins(ts[1..])
  }

  lemma {:induction false} TallyPinsIsTotalSize(ts: seq<WindowTally>, rows: seq<StatRow>, ks: seq<Id>)
    requires |ts| == |ks|
    requires forall j :: 0 <= j < |ts| ==> KeyFold(rows, RowWindow, NewTally, TallyStep, ks[j]) == Some(ts[j])
    ensures TallyPins(ts) == TotalSize(rows, RowWindow, ks)
  {
    if ts != [] {
      KeyFoldIsGroupFold(rows, RowWindow, NewTally, TallyStep, ks[0]);
      var ms := Members(rows, RowWindow, ks[0]);
      TallyOfGroup(ms[0], ms);
      TallyPinsIsTotalSize(ts[1..], rows, ks[1..]);
    }
  }

  datatype UserStats = UserStats(userId: Id, totalPins: nat, averageShiftWeight: Option<real>,
                                 quota: QuotaSimulation, pinsByWindow: seq<WindowTally>)

  /**
   * `getUserStats`: 404 for an unknown user; otherwise the pin count, the
   * average weight, the quota block for the user's contract, and one tally
   * per window (first-appearance order) whose pin counts add up to the total.
   */
  method GetUserStats(users: map<Id, User>, userId: Id, rows: seq<StatRow>) returns (reply: Reply<UserStats>)
    ensures userId !in users <==> reply == Err(UserNotFound)
    ensures userId in users <==> reply.Ok?
    ensures reply.Ok? ==> var s := reply.body;
      && reply.status == 200 && s.userId == userId
      && s.totalPins == |rows|
      && s.averageShiftWeight == AverageShiftWeight(rows)
      && s.quota == Quota(users[userId].contractPercent, |rows|)
      && TallyPins(s.pinsByWindow) == |rows|
      && |s.pinsByWindow| == |Keys(rows, RowWindow)|
      && (forall j :: 0 <= j < |s.pinsByWindow| ==>
            var ms := Members(rows, RowWindow, Keys(rows, RowWindow)[j]);
            var t := s.pinsByWindow[j];
            t.windowId == Keys(rows, RowWindow)[j] && t.pins == |ms| && t.totalWeight == WeightSum(ms))
  {
    if userId !in users {
      return Err(UserNotFound);
    }
    var tallies := FoldByKey(rows, RowWindow, NewTally, TallyStep);
    var ks := Keys(rows, RowWindow);
    forall j | 0 <= j < |tallies|
      ensures var ms := Members(rows, RowWindow, ks[j]);
        tallies[j].windowId == ks[j] && tallies[j].pins == |ms| && tallies[j].totalWeight == WeightSum(ms)
    {
      KeyFoldIsGroupFold(rows, RowWindow, NewTally, TallyStep, ks[j]);
      var ms := Members(rows, RowWindow, ks[j]);
      TallyOfGroup(ms[0], ms);
      MembersAreRows(rows, RowWindow, ks[j]);
      assert ms[0] in ms;
    }
    TallyPinsIsTotalSize(tallies, rows, ks);
    GroupSizesSum(rows, RowWindow);
    var stats := UserStats(userId, |rows|, AverageShiftWeight(rows), Quota(users[userId].contractPercent, |rows|), tallies);
    reply := Ok(200, stats);
  }

  // ---------------------------------------------------------------------------
  // getAdminDashboard
  // ---------------------------------------------------------------------------

  datatype Popularity = NoPins | Low | Medium | High

  /** Position on the none < low < medium < high scale. */
  function Level(p: Popularity): int
  {
    match p
    case NoPins => 0
    case Low => 1
    case Medium => 2
    case High => 3
  }

  /** The heatmap's class of a pin count: none for 0, low up to 2, medium up to 5, high beyond. */
  function PopularityOf(count: nat): (p: Popularity)
    ensures p == NoPins <==> count == 0
    ensures p == Low <==> 1 <= count <= 2
    ensures p == Medium <==> 3 <= count <= 5
    ensures p == High <==> count >= 6
  {
    if count == 0 then NoPins else if count <= 2 then Low else if count <= 5 then Medium else High
  }

  /** More pins never give a lower class. */
  lemma PopularityMonotone(a: nat, b: nat)
    requires a <= b
    ensures Level(PopularityOf(a)) <= Level(PopularityOf(b))
  {
  }

  /** One row of the dashboard's shift query: the shift with its pin count. */
  datatype ShiftRow = ShiftRow(id: Id, date: Time, kind: ShiftType, weight: Option<real>, pinCount: nat, windowId: Id)

  datatype HeatEntry = HeatEntry(shift: ShiftRow, popularity: Popularity)

  /** `shifts.map(...)`: each shift with its popularity class. */
  function Heatmap(shifts: seq<ShiftRow>): (h: seq<HeatEntry>)
    ensures |h| == |shifts|
    ensures forall i :: 0 <= i < |h| ==> h[i].shift == shifts[i] && h[i].popularity == PopularityOf(shifts[i].pinCount)
  {
    seq(|shifts|, i requires 0 <= i < |shifts| => HeatEntry(shifts[i], PopularityOf(shifts[i].pinCount)))
  }

  /** `pinCount === 0` */
  predicate Unpinned(e: HeatEntry)
  {
    e.shift.pinCount == 0
  }

  /** `pinCount !== 0` */
  predicate Pinned(e: HeatEntry)
  {
    e.shift.pinCount != 0
  }

  /**
   * shiftsWithZeroPins holds exactly the heatmap entries classed "none",
   * and together with the pinned entries accounts for every shift.
   */
  lemma ZeroPinsAreUnpopular(shifts: seq<ShiftRow>)
    ensures var h := Heatmap(shifts); var z := Filter(h, Unpinned);
      && (forall i :: 0 <= i < |z| ==> z[i] in h && z[i].popularity == NoPins)
      && (forall i :: 0 <= i < |h| && h[i].popularity == NoPins ==> h[i] in z)
      && |z| + |Filter(h, Pinned)| == |shifts|
  {
    var h := Heatmap(shifts);
    FilterComplement(h, Unpinned, Pinned);
  }

  /** `totalUsers > 0 ? totalPins / totalUsers : 0`, before the two-decimal rounding. */
  function AveragePinsPerUser(totalPins: nat, totalUsers: nat): (avg: real)
    ensures totalUsers == 0 ==> avg == 0.0
    ensures totalUsers > 0 ==> avg * totalUsers as real == totalPins as real && avg >= 0.0
  {
    if totalUsers > 0 then totalPins as real / totalUsers as real else 0.0
  }

  datatype WindowStat = WindowStat(windowId: Id, totalShifts: nat, totalPins: nat, averagePinsPerShift: real,
                                   shiftsWithNoPins: nat, mostPopularShift: Option<ShiftRow>, maxPins: nat)

  function ShiftWindow(row: ShiftRow): Id
  {
    row.windowId
  }

  function NewStat(row: ShiftRow): WindowStat
  {
    WindowStat(row.windowId, 0, 0, 0.0, 0, None, 0)
  }

  /**
   * One shift's update of its window's entry: count it, add its pins, count
   * it as unpinned if it has none, take it as most popular if it beats the
   * maximum so far strictly, and recompute the average.
   */
  function StatStep(s: WindowStat, row: ShiftRow): WindowStat
  {
    var counted := s.(totalShifts := s.totalShifts + 1, totalPins := s.totalPins + row.pinCount);
    var zeros := if row.pinCount == 0 then counted.(shiftsWithNoPins := counted.shiftsWithNoPins + 1) else counted;
    var best := if row.pinCount > zeros.maxPins then zeros.(maxPins := row.pinCount, mostPopularShift := Some(row)) else zeros;
    best.(averagePinsPerShift := best.totalPins as real / best.totalShifts as real)
  }

  /** Sum of the pin counts. */
  function PinCountSum(rows: seq<ShiftRow>): nat
  {
    if rows == [] then 0 else PinCountSum(rows[..|rows| - 1]) + rows[|rows| - 1].pinCount
  }

  predicate NoPinsRow(row: ShiftRow)
  {
    row.pinCount == 0
  }

  /** A window's rollup counts its shifts, sums their pins and counts the unpinned ones. */
  lemma {:induction false} StatCounts(first: ShiftRow, ms: seq<ShiftRow>)
    ensures var s := Fold(NewStat(first), ms, StatStep);
      && s.windowId == first.windowId
      && s.totalShifts == |ms|
      && s.totalPins == PinCountSum(ms)
      && s.shiftsWithNoPins == |Filter(ms, NoPinsRow)|
      && (ms != [] ==> s.averagePinsPerShift == PinCountSum(ms) as real / |ms| as real)
  {
    if ms != [] {
      StatCounts(first, ms[..|ms| - 1]);
    }
  }

  /**
   * maxPins bounds every count of the window and is reached by the most
   * popular shift, which is the first shift with that count; when every
   * count is 0 there is no most popular shift and maxPins stays 0.
   */
  lemma {:induction false} StatMaximum(first: ShiftRow, ms: seq<ShiftRow>)
    ensures var s := Fold(NewStat(first), ms, StatStep);
      && (forall i :: 0 <= i < |ms| ==> ms[i].pinCount <= s.maxPins)
      && (s.mostPopularShift.None? <==> s.maxPins == 0)
      && (s.mostPopularShift.None? ==> forall i :: 0 <= i < |ms| ==> ms[i].pinCount == 0)
      && (s.mostPopularShift.Some? ==> exists i :: (0 <= i < |ms| && ms[i] == s.mostPopularShift.value
            && ms[i].pinCount == s.maxPins && forall j :: 0 <= j < i ==> ms[j].pinCount < s.maxPins))
  {
    if ms != [] {
      var front, last := ms[..|ms| - 1], ms[|ms| - 1];
      StatMaximum(first, front);
      var s0 := Fold(NewStat(first), front, StatStep);
      var s := Fold(NewStat(first), ms, StatStep);
      assert s == StatStep(s0, last);
      assert s.maxPins == if last.pinCount > s0.maxPins then last.pinCount else s0.maxPins;
      assert s.mostPopularShift == if last.pinCount > s0.maxPins then Some(last) else s0.mostPopularShift;
      assert forall i :: 0 <= i < |front| ==> front[i] == ms[i];
      if last.pinCount > s0.maxPins {
        assert ms[|ms| - 1] == s.mostPopularShift.value;
      } else if s0.mostPopularShift.Some? {
        var i :| 0 <= i < |front| && front[i] == s0.mostPopularShift.value
          && front[i].pinCount == s0.maxPins && forall j :: 0 <= j < i ==> front[j].pinCount < s0.maxPins;
        assert ms[i] == s.mostPopularShift.value;
      }
    }
  }

  /**
   * What a window's rollup promises about the window's shifts `ms`: its id,
   * the counts and the average, a maximum that bounds every count, and as
   * most popular shift the first one with that maximum, or none when no
   * shift has a pin.
   */
  ghost predicate IsRollup(s: WindowStat, k: Id, ms: seq<ShiftRow>)
  {
    && s.windowId == k
    && s.totalShifts == |ms| && s.totalPins == PinCountSum(ms)
    && s.shiftsWithNoPins == |Filter(ms, NoPinsRow)|
    && (ms != [] ==> s.averagePinsPerShift == PinCountSum(ms) as real / |ms| as real)
    && (forall i :: 0 <= i < |ms| ==> ms[i].pinCount <= s.maxPins)
    && (s.mostPopularShift.None? <==> s.maxPins == 0)
    && (s.mostPopularShift.None? <==> forall i :: 0 <= i < |ms| ==> ms[i].pinCount == 0)
    && (s.mostPopularShift.Some? ==> exists i :: (0 <= i < |ms| && ms[i] == s.mostPopularShift.value
          && ms[i].pinCount == s.maxPins && forall j :: 0 <= j < i ==> ms[j].pinCount < s.maxPins))
  }

  /** The fold over a window's shifts, started from its first shift, is that window's rollup. */
  lemma FoldIsRollup(ms: seq<ShiftRow>)
    requires ms != []
    ensures IsRollup(Fold(NewStat(ms[0]), ms, StatStep), ms[0].windowId, ms)
  {
    StatCounts(ms[0], ms);
    StatMaximum(ms[0], ms);
  }

  /** One row of the users-by-pin-count query. */
  datatype UserCount = UserCount(id: Id, name: string, email: string, contractPercent: int, pinCount: nat)

  /** `slice(0, 10)` */
  function TopUsers(users: seq<UserCount>): (top: seq<UserCount>)
    ensures |top| <= 10
    ensures top <= users
    ensures |users| <= 10 ==> top == users
  {
    if |users| <= 10 then users else users[..10]
  }

  datatype Summary = Summary(totalShifts: nat, totalPins: nat, totalUsers: nat, averagePinsPerUser: real, shiftsWithZeroPins: nat)

  datatype Dashboard = Dashboard(summary: Summary, heatmap: seq<HeatEntry>, zeroPins: seq<HeatEntry>,
                                 windowStatistics: seq<WindowStat>, topUsers: seq<UserCount>)

  /**
   * `getAdminDashboard`: the heatmap, the unpinned shifts, one rollup per
   * window in first-appearance order, and the first ten users of the
   * pin-count ranking.
   */
  method AdminDashboard(shifts: seq<ShiftRow>, totalUsers: nat, totalPins: nat, usersByPins: seq<UserCount>)
    returns (d: Dashboard)
    ensures d.heatmap == Heatmap(shifts)
    ensures d.zeroPins == Filter(d.heatmap, Unpinned)
    ensures d.summary == Summary(|shifts|, totalPins, totalUsers, AveragePinsPerUser(totalPins, totalUsers), |d.zeroPins|)
    ensures |d.windowStatistics| == |Keys(shifts, ShiftWindow)|
    ensures forall j :: 0 <= j < |d.windowStatistics| ==>
      IsRollup(d.windowStatistics[j], Keys(shifts, ShiftWindow)[j], Members(shifts, ShiftWindow, Keys(shifts, ShiftWindow)[j]))
    ensures d.topUsers == TopUsers(usersByPins)
  {
    var heatmap := Heatmap(shifts);
    var zero := Filter(heatmap, Unpinned);
    var stats := FoldByKey(shifts, ShiftWindow, NewStat, StatStep);
    var ks := Keys(shifts, ShiftWindow);
    forall j | 0 <= j < |stats|
      ensures IsRollup(stats[j], ks[j], Members(shifts, ShiftWindow, ks[j]))
    {
      KeyFoldIsGroupFold(shifts, ShiftWindow, NewStat, StatStep, ks[j]);
      var ms := Members(shifts, ShiftWindow, ks[j]);
      FoldIsRollup(ms);
      MembersAreRows(shifts, ShiftWindow, ks[j]);
      assert ms[0] in ms;
    }
    var summary := Summary(|shifts|, totalPins, totalUsers, AveragePinsPerUser(totalPins, totalUsers), |zero|);
    d := Dashboard(summary, heatmap, zero, stats, TopUsers(usersByPins));
  }
}
