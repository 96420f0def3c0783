/**
 * Shifts: creating one shift, creating a batch in one transaction, changing a
 * shift's weight, and the per-window shift statistics. A shift is identified
 * by its (date, type, window) slot, which the writes keep unique.
 */
module ShiftController {
  import opened Common
  import opened Store
  import opened Grouping

  // ---------------------------------------------------------------------------
  // createShift
  // ---------------------------------------------------------------------------

  /** The request passes the four checks of `createShift` that precede the window's timeframe. */
  predicate ShiftFieldsValid(windows: map<Id, Window>, date: DateField, kind: Option<string>, windowId: Option<Id>)
  {
    && !date.Falsy() && Given(kind) && windowId.Some?
    && ParseShiftType(kind.value).Some? && date.Parsed? && windowId.value in windows
  }

  /**
   * The answer of `createShift` for a request and the current tables: the
   * first failing check, or 201 with the shift to insert (its weight is the
   * schema default).
   */
  function ShiftDecision(windows: map<Id, Window>, shifts: map<Id, Shift>, defaultWeight: Option<real>,
                         date: DateField, kind: Option<string>, windowId: Option<Id>): (r: Reply<Shift>)
    ensures r == Err(MissingFields) <==> date.Falsy() || !Given(kind) || windowId.None?
    ensures r == Err(InvalidShiftType) <==> !(date.Falsy() || !Given(kind) || windowId.None?) && ParseShiftType(kind.value).None?
    ensures r == Err(InvalidDate) <==> !(date.Falsy() || !Given(kind) || windowId.None?) && ParseShiftType(kind.value).Some? && date.Unparsable?
    ensures r == Err(WindowNotFound) <==> !(date.Falsy() || !Given(kind) || windowId.None?) && ParseShiftType(kind.value).Some? && date.Parsed? && windowId.value !in windows
    ensures r == Err(DateOutsideWindow) <==> (ShiftFieldsValid(windows, date, kind, windowId)
      && (date.t < windows[windowId.value].startDate || date.t > windows[windowId.value].endDate))
    ensures r == Err(DuplicateShift) <==> (ShiftFieldsValid(windows, date, kind, windowId)
      && windows[windowId.value].startDate <= date.t <= windows[windowId.value].endDate
      && SlotTaken(shifts, Shift(date.t, ParseShiftType(kind.value).value, defaultWeight, windowId.value)))
    ensures r.Ok? <==> (ShiftFieldsValid(windows, date, kind, windowId)
      && windows[windowId.value].startDate <= date.t <= windows[windowId.value].endDate
      && !SlotTaken(shifts, Shift(date.t, ParseShiftType(kind.value).value, defaultWeight, windowId.value)))
    ensures r.Ok? ==> (r.status == 201 && date.Parsed? && windowId.Some? && Given(kind)
      && r.body == Shift(date.t, ParseShiftType(kind.value).value, defaultWeight, windowId.value)
      && ShiftTypeName(r.body.kind) == kind.value
      && windowId.value in windows
      && windows[windowId.value].startDate <= date.t <= windows[windowId.value].endDate
      && !SlotTaken(shifts, r.body))
    ensures r.Err? ==> r.reason in {MissingFields, InvalidShiftType, InvalidDate, WindowNotFound, DateOutsideWindow, DuplicateShift}
  {
    if date.Falsy() || !Given(kind) || windowId.None? then Err(MissingFields)
    else if ParseShiftType(kind.value).None? then Err(InvalidShiftType)
    else if !date.Parsed? then Err(InvalidDate)
    else if windowId.value !in windows then Err(WindowNotFound)
    else
      var w := windows[windowId.value];
      if date.t < w.startDate || date.t > w.endDate then Err(DateOutsideWindow)
      else
        var s := Shift(date.t, ParseShiftType(kind.value).value, defaultWeight, windowId.value);
        if SlotTaken(shifts, s) then Err(DuplicateShift) else Ok(201, s)
  }

  /** Inserting a shift whose window exists and whose slot is free keeps the shift table valid. */
  lemma InsertKeepsShiftsValid(shifts: map<Id, Shift>, windows: map<Id, Window>, id: Id, s: Shift)
    requires ShiftsValid(shifts, windows)
    requires id !in shifts && s.windowId in windows && !SlotTaken(shifts, s)
    ensures ShiftsValid(shifts[id := s], windows)
  {
    var t := shifts[id := s];
    forall a, b | a in t && b in t && a != b ensures !SameSlot(t[a], t[b])
    {
      if a == id {
        assert !SameSlot(shifts[b], s);
      } else if b == id {
        assert !SameSlot(shifts[a], s);
      }
    }
  }

  /** A request that was just accepted is refused with 409 when repeated. */
  lemma RepeatedShiftRefused(windows: map<Id, Window>, shifts: map<Id, Shift>, defaultWeight: Option<real>,
                             date: DateField, kind: Option<string>, windowId: Option<Id>, id: Id)
    requires ShiftDecision(windows, shifts, defaultWeight, date, kind, windowId).Ok?
    ensures var s := ShiftDecision(windows, shifts, defaultWeight, date, kind, windowId).body;
      ShiftDecision(windows, shifts[id := s], defaultWeight, date, kind, windowId) == Err(DuplicateShift)
  {
    var s := ShiftDecision(windows, shifts, defaultWeight, date, kind, windowId).body;
    assert SameSlot(shifts[id := s][id], s);
  }

  /**
   * `createShift`: on success one shift with a fresh id is inserted (201);
   * otherwise the store is unchanged.
   */
  method CreateShift(db: Db, date: DateField, kind: Option<string>, windowId: Option<Id>) returns (reply: Reply<(Id, Shift)>)
    requires db.Valid()
    modifies db`shifts, db`nextId
    ensures db.Valid()
    ensures var d := ShiftDecision(db.windows, old(db.shifts), db.defaultWeight, date, kind, windowId);
      && (d.Err? ==> reply == Err(d.reason) && db.shifts == old(db.shifts))
      && (d.Ok? ==> reply.Ok? && reply.status == 201 && reply.body.1 == d.body
                    && reply.body.0 !in old(db.shifts) && db.shifts == old(db.shifts)[reply.body.0 := d.body])
  {
    var d := ShiftDecision(db.windows, db.shifts, db.defaultWeight, date, kind, windowId);
    if d.Err? {
      return Err(d.reason);
    }
    var id := db.InsertShift(d.body);
    reply := Ok(201, (id, d.body));
  }

  // ---------------------------------------------------------------------------
  // createBulkShifts
  // ---------------------------------------------------------------------------

  /** One element of the `shifts` array of a bulk request. */
  datatype BulkInput = BulkInput(date: DateField, kind: Option<string>, windowId: Option<Id>)

  /** The element passes the per-item validation. */
  predicate WellFormed(item: BulkInput)
  {
    !item.date.Falsy() && Given(item.kind) && item.windowId.Some?
    && ParseShiftType(item.kind.value).Some? && item.date.Parsed?
  }

  /** The error the validation loop reports for the element at index i, if any. */
  function ItemRefusal(item: BulkInput, i: nat): (r: Option<Reason>)
    ensures r.None? <==> WellFormed(item)
    ensures r.Some? ==> r.value in {BatchItemMissingFields(i), BatchItemInvalidType(i), BatchItemInvalidDate(i)}
  {
    if item.date.Falsy() || !Given(item.kind) || item.windowId.None? then Some(BatchItemMissingFields(i))
    else if ParseShiftType(item.kind.value).None? then Some(BatchItemInvalidType(i))
    else if !item.date.Parsed? then Some(BatchItemInvalidDate(i))
    else None
  }

  /** The first element's error, scanning from index 0. */
  function FirstRefusal(items: seq<BulkInput>): Option<Reason>
  {
    if items == [] then None
    else
      var prev := FirstRefusal(items[..|items| - 1]);
      if prev.Some? then prev else ItemRefusal(items[|items| - 1], |items| - 1)
  }

  /** The scan reports the error of the first ill-formed element, and nothing when all are well formed. */
  lemma {:induction false} FirstRefusalIsFirst(items: seq<BulkInput>)
    ensures FirstRefusal(items).None? <==> forall i :: 0 <= i < |items| ==> WellFormed(items[i])
    ensures FirstRefusal(items).Some? ==> exists i :: (0 <= i < |items| && FirstRefusal(items) == ItemRefusal(items[i], i)
      && forall j :: 0 <= j < i ==> WellFormed(items[j]))
  {
    if items != [] {
      var front := items[..|items| - 1];
      FirstRefusalIsFirst(front);
      assert forall i :: 0 <= i < |front| ==> front[i] == items[i];
    }
  }

  /** The validation loop: stops at the first ill-formed element. */
  method ValidateBatch(items: seq<BulkInput>) returns (r: Option<Reason>)
    ensures r == FirstRefusal(items)
  {
    for i := 0 to |items|
      invariant FirstRefusal(items[..i]).None?
    {
      assert items[..i + 1][..i] == items[..i];
      var refusal := ItemRefusal(items[i], i);
      if refusal.Some? {
        FirstRefusalPrefix(items, i + 1);
        return refusal;
      }
    }
    assert items[..|items|] == items;
    return None;
  }

  /** Once the scan of a prefix finds an error, the scan of the whole finds the same one. */
  lemma {:induction false} FirstRefusalPrefix(items: seq<BulkInput>, n: nat)
    requires n <= |items|
    requires FirstRefusal(items[..n]).Some?
    ensures FirstRefusal(items) == FirstRefusal(items[..n])
    decreases |items| - n
  {
    if n < |items| {
      var front := items[..|items| - 1];
      assert front[..n] == items[..n];
      FirstRefusalPrefix(front, n);
    } else {
      assert items[..n] == items;
    }
  }

  /** The shift a well-formed element describes. */
  function ShiftOf(item: BulkInput, defaultWeight: Option<real>): Shift
    requires WellFormed(item)
  {
    Shift(item.date.t, ParseShiftType(item.kind.value).value, defaultWeight, item.windowId.value)
  }

  /** Some shift of `cs` has the slot of `s`. */
  predicate SlotIn(cs: seq<Shift>, s: Shift)
  {
    exists j :: 0 <= j < |cs| && SameSlot(cs[j], s)
  }

  /**
   * The transaction over a validated batch: None when some element names a
   * missing window (the transaction throws and is rolled back), otherwise the
   * shifts it creates, in order, skipping every element whose slot is taken,
   * by an existing shift or by one created earlier in the same batch.
   */
  function BulkRun(shifts: map<Id, Shift>, windows: map<Id, Window>, defaultWeight: Option<real>, items: seq<BulkInput>): (r: Option<seq<Shift>>)
    requires FirstRefusal(items).None?
    ensures r.Some? ==> |r.value| <= |items|
  {
    if items == [] then Some([])
    else
      var front, x := items[..|items| - 1], items[|items| - 1];
      var prev := BulkRun(shifts, windows, defaultWeight, front);
      if prev.None? || x.windowId.value !in windows then None
      else
        var s := ShiftOf(x, defaultWeight);
        if SlotTaken(shifts, s) || SlotIn(prev.value, s) then prev else Some(prev.value + [s])
  }

  /**
   * What the transaction guarantees: it throws exactly when some element
   * names a missing window; otherwise every created shift lies in an
   * existing window, takes a slot that was free, no two share a slot, and
   * afterwards every element's slot is taken.
   */
  lemma {:induction false} BulkRunFacts(shifts: map<Id, Shift>, windows: map<Id, Window>, defaultWeight: Option<real>, items: seq<BulkInput>)
    requires FirstRefusal(items).None?
    ensures FirstRefusal(items).None? && forall i :: 0 <= i < |items| ==> WellFormed(items[i])
    ensures var r := BulkRun(shifts, windows, defaultWeight, items);
      && (r.None? <==> exists i :: 0 <= i < |items| && items[i].windowId.Some? && items[i].windowId.value !in windows)
      && (r.Some? ==> forall j :: 0 <= j < |r.value| ==> r.value[j].windowId in windows && !SlotTaken(shifts, r.value[j]))
      && (r.Some? ==> forall j, k :: 0 <= j < k < |r.value| ==> !SameSlot(r.value[j], r.value[k]))
      && (r.Some? ==> forall i :: 0 <= i < |items| ==>
            SlotTaken(shifts, ShiftOf(items[i], defaultWeight)) || SlotIn(r.value, ShiftOf(items[i], defaultWeight)))
  {
    FirstRefusalIsFirst(items);
    if items != [] {
      var front, x := items[..|items| - 1], items[|items| - 1];
      assert forall i :: 0 <= i < |front| ==> front[i] == items[i];
      FirstRefusalIsFirst(front);
      BulkRunFacts(shifts, windows, defaultWeight, front);
      var prev := BulkRun(shifts, windows, defaultWeight, front);
      if prev.Some? && x.windowId.value in windows {
        var s := ShiftOf(x, defaultWeight);
        if !(SlotTaken(shifts, s) || SlotIn(prev.value, s)) {
          var cs := prev.value + [s];
          assert cs[|cs| - 1] == s;
          forall i | 0 <= i < |items|
            ensures SlotTaken(shifts, ShiftOf(items[i], defaultWeight)) || SlotIn(cs, ShiftOf(items[i], defaultWeight))
          {
            if i < |front| && !SlotTaken(shifts, ShiftOf(items[i], defaultWeight)) {
              var j :| 0 <= j < |prev.value| && SameSlot(prev.value[j], ShiftOf(front[i], defaultWeight));
              assert cs[j] == prev.value[j];
            }
          }
        }
      }
    }
  }

  /**
   * Re-running a batch against a table that already holds every element's
   * slot creates nothing: all elements are skipped.
   */
  lemma {:induction false} RerunCreatesNothing(shifts: map<Id, Shift>, windows: map<Id, Window>, defaultWeight: Option<real>, items: seq<BulkInput>)
    requires FirstRefusal(items).None?
    requires forall i :: 0 <= i < |items| ==> items[i].windowId.Some? && items[i].windowId.value in windows
    requires forall i :: 0 <= i < |items| && WellFormed(items[i]) ==> SlotTaken(shifts, ShiftOf(items[i], defaultWeight))
    ensures BulkRun(shifts, windows, defaultWeight, items) == Some([])
  {
    if items != [] {
      var front := items[..|items| - 1];
      assert forall i :: 0 <= i < |front| ==> front[i] == items[i];
      FirstRefusalIsFirst(items);
      FirstRefusalIsFirst(front);
      RerunCreatesNothing(shifts, windows, defaultWeight, front);
    }
  }

  /** The table after inserting the created (id, shift) pairs in order. */
  function WithCreated(base: map<Id, Shift>, created: seq<(Id, Shift)>): map<Id, Shift>
  {
    if created == [] then base
    else
      var last := created[|created| - 1];
      WithCreated(base, created[..|created| - 1])[last.0 := last.1]
  }

  function Seconds(created: seq<(Id, Shift)>): (cs: seq<Shift>)
    ensures |cs| == |created| && forall j :: 0 <= j < |cs| ==> cs[j] == created[j].1
  {
    seq(|created|, j requires 0 <= j < |created| => created[j].1)
  }

  /** Ids handed out in increasing order, none of them already in the base table. */
  predicate FreshIds(base: map<Id, Shift>, created: seq<(Id, Shift)>)
  {
    && (forall j :: 0 <= j < |created| ==> created[j].0 !in base)
    && (forall j, k :: 0 <= j < k < |created| ==> created[j].0 < created[k].0)
  }

  /** The table with the created rows keeps every base row and adds exactly the created ones. */
  lemma {:induction false} WithCreatedShape(base: map<Id, Shift>, created: seq<(Id, Shift)>)
    requires FreshIds(base, created)
    ensures var t := WithCreated(base, created);
      && (forall id :: id in base ==> id in t && t[id] == base[id])
      && (forall id :: id in t ==> id in base || exists j :: 0 <= j < |created| && created[j].0 == id)
      && (forall j :: 0 <= j < |created| ==> created[j].0 in t && t[created[j].0] == created[j].1)
  {
    if created != [] {
      var front, last := created[..|created| - 1], created[|created| - 1];
      assert forall j :: 0 <= j < |front| ==> front[j] == created[j];
      WithCreatedShape(base, front);
    }
  }

  /** A slot is taken in the table with the created rows iff it was taken before or a created shift holds it. */
  lemma WithCreatedSlot(base: map<Id, Shift>, created: seq<(Id, Shift)>, s: Shift)
    requires FreshIds(base, created)
    ensures SlotTaken(WithCreated(base, created), s) <==> SlotTaken(base, s) || SlotIn(Seconds(created), s)
  {
    var t := WithCreated(base, created);
    var cs := Seconds(created);
    WithCreatedShape(base, created);
    if SlotTaken(t, s) {
      var id :| id in t && SameSlot(t[id], s);
      if id !in base {
        var j :| 0 <= j < |created| && created[j].0 == id;
        assert SameSlot(cs[j], s);
      }
    }
    if SlotIn(cs, s) {
      var j :| 0 <= j < |cs| && SameSlot(cs[j], s);
      assert SameSlot(t[created[j].0], s);
    }
    if SlotTaken(base, s) {
      var id :| id in base && SameSlot(base[id], s);
      assert SameSlot(t[id], s);
    }
  }

  /** The committed table of a successful batch is a valid shift table. */
  lemma CommitKeepsShiftsValid(base: map<Id, Shift>, windows: map<Id, Window>, created: seq<(Id, Shift)>)
    requires ShiftsValid(base, windows) && FreshIds(base, created)
    requires forall j :: 0 <= j < |created| ==> created[j].1.windowId in windows && !SlotTaken(base, created[j].1)
    requires forall j, k :: 0 <= j < k < |created| ==> !SameSlot(created[j].1, created[k].1)
    ensures ShiftsValid(WithCreated(base, created), windows)
  {
    var t := WithCreated(base, created);
    WithCreatedShape(base, created);
    forall id | id in t ensures t[id].windowId in windows
    {
      if id !in base {
        var j :| 0 <= j < |created| && created[j].0 == id;
      }
    }
    forall a, b | a in t && b in t && a != b ensures !SameSlot(t[a], t[b])
    {
      if a in base && b !in base {
        var k :| 0 <= k < |created| && created[k].0 == b;
        assert !SameSlot(base[a], created[k].1);
      } else if a !in base && b in base {
        var j :| 0 <= j < |created| && created[j].0 == a;
        assert !SameSlot(base[b], created[j].1);
      } else if a !in base && b !in base {
        var j :| 0 <= j < |created| && created[j].0 == a;
        var k :| 0 <= k < |created| && created[k].0 == b;
        if j < k {
          assert !SameSlot(created[j].1, created[k].1);
        } else {
          assert !SameSlot(created[k].1, created[j].1);
        }
      }
    }
  }

  datatype BulkResult = BulkResult(created: seq<(Id, Shift)>, skipped: nat)

  /**
   * The transaction's loop over a validated batch: looks up each element's
   * window (a missing one aborts the whole run), skips an element whose slot
   * is taken in the table as it stands, created rows included, and otherwise
   * creates the shift under a fresh id. Nothing is written to the store; the
   * caller commits the resulting table.
   */
  method RunBatch(db: Db, items: seq<BulkInput>) returns (result: Option<(map<Id, Shift>, seq<(Id, Shift)>)>)
    requires db.Valid() && FirstRefusal(items).None?
    modifies db`nextId
    ensures db.Valid()
    ensures result.None? <==> BulkRun(db.shifts, db.windows, db.defaultWeight, items).None?
    ensures result.Some? ==> var (table, created) := result.value;
      && BulkRun(db.shifts, db.windows, db.defaultWeight, items) == Some(Seconds(created))
      && FreshIds(db.shifts, created)
      && (forall j :: 0 <= j < |created| ==> created[j].0 < db.nextId)
      && table == WithCreated(db.shifts, created)
  {
    var base, windows, defaultWeight := db.shifts, db.windows, db.defaultWeight;
    BulkRunFacts(base, windows, defaultWeight, items);
    var table := base;
    var created: seq<(Id, Shift)> := [];
    var first := db.nextId;
    for i := 0 to |items|
      invariant db.Valid() && db.shifts == base && db.windows == windows && db.defaultWeight == defaultWeight
      invariant db.nextId == first + |created|
      invariant Numbered(created, first)
      invariant table == WithCreated(base, created)
      invariant FirstRefusal(items[..i]).None?
      invariant BulkRun(base, windows, defaultWeight, items[..i]) == Some(Seconds(created))
    {
      var item := items[i];
      BulkRunStep(base, windows, defaultWeight, items, i);
      if item.windowId.value !in windows {
        return None;
      }
      var s := ShiftOf(item, defaultWeight);
      WithCreatedSlot(base, created, s);
      if !SlotTaken(table, s) {
        var id := db.NewId();
        table := table[id := s];
        SnocCreated(base, created, id, s);
        created := created + [(id, s)];
      }
    }
    assert items[..|items|] == items;
    assert FreshIds(base, created);
    return Some((table, created));
  }

  /** The created rows carry the consecutive ids first, first + 1, ... */
  predicate Numbered(created: seq<(Id, Shift)>, first: Id)
  {
    forall j :: 0 <= j < |created| ==> created[j].0 == first + j
  }

  /** One more element of a validated batch: the run over the longer prefix, from the run over the shorter one. */
  lemma BulkRunStep(base: map<Id, Shift>, windows: map<Id, Window>, defaultWeight: Option<real>, items: seq<BulkInput>, i: nat)
    requires FirstRefusal(items).None? && i < |items|
    ensures FirstRefusal(items[..i]).None? && FirstRefusal(items[..i + 1]).None? && WellFormed(items[i])
    ensures var prev := BulkRun(base, windows, defaultWeight, items[..i]);
      BulkRun(base, windows, defaultWeight, items[..i + 1]) ==
        if prev.None? || items[i].windowId.value !in windows then None
        else
          var s := ShiftOf(items[i], defaultWeight);
          if SlotTaken(base, s) || SlotIn(prev.value, s) then prev else Some(prev.value + [s])
  {
    FirstRefusalIsFirst(items);
    FirstRefusalIsFirst(items[..i]);
    FirstRefusalIsFirst(items[..i + 1]);
    assert items[..i + 1][..i] == items[..i];
  }

  /** Appending a freshly numbered row to the created list. */
  lemma SnocCreated(base: map<Id, Shift>, created: seq<(Id, Shift)>, id: Id, s: Shift)
    ensures WithCreated(base, created + [(id, s)]) == WithCreated(base, created)[id := s]
    ensures Seconds(created + [(id, s)]) == Seconds(created) + [s]
  {
    assert (created + [(id, s)])[..|created|] == created;
  }

  /**
   * `createBulkShifts`: 400 for a missing or empty array and for the first
   * ill-formed element, before any write; 500 with nothing persisted when an
   * element names a missing window; otherwise 201 with the created shifts
   * under fresh ids, the rest counted as skipped.
   */
  method CreateBulkShifts(db: Db, batch: Option<seq<BulkInput>>) returns (reply: Reply<BulkResult>)
    requires db.Valid()
    modifies db`shifts, db`nextId
    ensures db.Valid()
    ensures batch.None? || batch.value == [] ==> reply == Err(EmptyBatch) && db.shifts == old(db.shifts)
    ensures batch.Some? && batch.value != [] && FirstRefusal(batch.value).Some? ==>
      reply == Err(FirstRefusal(batch.value).value) && db.shifts == old(db.shifts)
    ensures batch.Some? && batch.value != [] && FirstRefusal(batch.value).None? ==>
      var run := BulkRun(old(db.shifts), db.windows, db.defaultWeight, batch.value);
      && (run.None? ==> reply == Err(InternalError) && db.shifts == old(db.shifts))
      && (run.Some? ==> (reply.Ok? && reply.status == 201
            && Seconds(reply.body.created) == run.value
            && reply.body.skipped == |batch.value| - |run.value|
            && FreshIds(old(db.shifts), reply.body.created)
            && db.shifts == WithCreated(old(db.shifts), reply.body.created)))
  {
    if batch.None? || |batch.value| == 0 {
      return Err(EmptyBatch);
    }
    var items := batch.value;
    var refusal := ValidateBatch(items);
    if refusal.Some? {
      return Err(refusal.value);
    }
    var result := RunBatch(db, items);
    if result.None? {
      return Err(InternalError);
    }
    var (table, created) := result.value;
    BulkRunFacts(db.shifts, db.windows, db.defaultWeight, items);
    CommitKeepsShiftsValid(db.shifts, db.windows, created);
    WithCreatedShape(db.shifts, created);
    db.shifts := table;
    reply := Ok(201, BulkResult(created, |items| - |created|));
  }

  /** After a successful batch every element's slot is taken, so running the same batch again creates nothing. */
  lemma BulkIsIdempotent(base: map<Id, Shift>, windows: map<Id, Window>, defaultWeight: Option<real>,
                         items: seq<BulkInput>, created: seq<(Id, Shift)>)
    requires FirstRefusal(items).None? && FreshIds(base, created)
    requires BulkRun(base, windows, defaultWeight, items) == Some(Seconds(created))
    ensures BulkRun(WithCreated(base, created), windows, defaultWeight, items) == Some([])
  {
    BulkRunFacts(base, windows, defaultWeight, items);
    forall i | 0 <= i < |items| && WellFormed(items[i])
      ensures SlotTaken(WithCreated(base, created), ShiftOf(items[i], defaultWeight))
    {
      WithCreatedSlot(base, created, ShiftOf(items[i], defaultWeight));
    }
    RerunCreatesNothing(WithCreated(base, created), windows, defaultWeight, items);
  }

  // ---------------------------------------------------------------------------
  // updateShiftWeight
  // ---------------------------------------------------------------------------

  /** The `weight` of the request body as `typeof` and the comparisons see it. */
  datatype WeightField = Absent | Null | NotNumber | Number(value: real)

  /** The weight checks, in order: required, then a non-negative number. */
  function WeightRefusal(weight: WeightField): (r: Option<Reason>)
    ensures r.None? <==> weight.Number? && weight.value >= 0.0
    ensures r == Some(WeightRequired) <==> weight.Absent? || weight.Null?
    ensures r == Some(WeightNotNonNegative) <==> weight.NotNumber? || (weight.Number? && weight.value < 0.0)
  {
    if weight.Absent? || weight.Null? then Some(WeightRequired)
    else if !weight.Number? || weight.value < 0.0 then Some(WeightNotNonNegative)
    else None
  }

  datatype WeightUpdate = WeightUpdate(id: Id, shift: Shift, previousWeight: Option<real>)

  /** The table with one shift's weight replaced. */
  function Reweighed(shifts: map<Id, Shift>, id: Id, w: real): (t: map<Id, Shift>)
    requires id in shifts
    ensures t.Keys == shifts.Keys && t[id].weight == Some(w)
    ensures forall k :: k in shifts ==> SameSlot(t[k], shifts[k])
    ensures forall k :: k in shifts && k != id ==> t[k] == shifts[k]
  {
    shifts[id := shifts[id].(weight := Some(w))]
  }

  /** A weight change leaves every slot where it was, so the shift table stays valid. */
  lemma ReweighKeepsShiftsValid(shifts: map<Id, Shift>, windows: map<Id, Window>, id: Id, w: real)
    requires id in shifts && ShiftsValid(shifts, windows)
    ensures ShiftsValid(Reweighed(shifts, id, w), windows)
  {
    var t := Reweighed(shifts, id, w);
    forall a, b | a in t && b in t && a != b ensures !SameSlot(t[a], t[b])
    {
      assert !SameSlot(shifts[a], shifts[b]);
    }
  }

  /** Setting the same weight twice is the same as setting it once. */
  lemma ReweighIdempotent(shifts: map<Id, Shift>, id: Id, w: real)
    requires id in shifts
    ensures Reweighed(Reweighed(shifts, id, w), id, w) == Reweighed(shifts, id, w)
  {
  }

  /**
   * `updateShiftWeight`: 400 for a missing, null, non-numeric or negative
   * weight, 404 for an unknown shift; otherwise only that shift's weight
   * changes, and the reply carries the previous weight.
   */
  method UpdateShiftWeight(db: Db, id: Id, weight: WeightField) returns (reply: Reply<WeightUpdate>)
    requires db.Valid()
    modifies db`shifts
    ensures db.Valid()
    ensures WeightRefusal(weight).Some? ==> reply == Err(WeightRefusal(weight).value) && db.shifts == old(db.shifts)
    ensures WeightRefusal(weight).None? && id !in old(db.shifts) ==> reply == Err(ShiftNotFound) && db.shifts == old(db.shifts)
    ensures WeightRefusal(weight).None? && id in old(db.shifts) ==>
      && db.shifts == Reweighed(old(db.shifts), id, weight.value)
      && reply == Ok(200, WeightUpdate(id, db.shifts[id], old(db.shifts)[id].weight))
  {
    var refusal := WeightRefusal(weight);
    if refusal.Some? {
      return Err(refusal.value);
    }
    if id !in db.shifts {
      return Err(ShiftNotFound);
    }
    var previous := db.shifts[id].weight;
    ReweighKeepsShiftsValid(db.shifts, db.windows, id, weight.value);
    db.shifts := Reweighed(db.shifts, id, weight.value);
    reply := Ok(200, WeightUpdate(id, db.shifts[id], previous));
  }

  // ---------------------------------------------------------------------------
  // getShiftStats
  // ---------------------------------------------------------------------------

  /** One row of the statistics query: a shift with its pin count. */
  datatype ShiftStatRow = ShiftStatRow(id: Id, date: Time, kind: ShiftType, pinCount: nat, windowId: Id)

  datatype ShiftStats = ShiftStats(data: seq<Group<ShiftStatRow>>, totalShifts: nat, totalPins: nat)

  function StatWindow(row: ShiftStatRow): Id
  {
    row.windowId
  }

  /** `shifts.reduce((sum, shift) => sum + shift._count.pins, 0)` */
  function PinTotal(rows: seq<ShiftStatRow>): nat
  {
    if rows == [] then 0 else PinTotal(rows[..|rows| - 1]) + rows[|rows| - 1].pinCount
  }

  /**
   * `getShiftStats`: every shift in exactly one window group, groups in
   * first-appearance order; totalShifts is the row count (also the sum of the
   * group sizes) and totalPins the sum of the pin counts.
   */
  method GetShiftStats(rows: seq<ShiftStatRow>) returns (r: ShiftStats)
    ensures r.totalShifts == |rows| == SizeSum(r.data)
    ensures r.totalPins == PinTotal(rows)
    ensures |r.data| == |Keys(rows, StatWindow)|
    ensures forall j :: 0 <= j < |r.data| ==> r.data[j].key == Keys(rows, StatWindow)[j]
    ensures forall i :: 0 <= i < |rows| ==> exists j :: 0 <= j < |r.data| && r.data[j].key == rows[i].windowId && rows[i] in r.data[j].members
    ensures forall j, y :: 0 <= j < |r.data| && y in r.data[j].members ==> y.windowId == r.data[j].key
    ensures forall j, j' :: 0 <= j < j' < |r.data| ==> r.data[j].key != r.data[j'].key
    ensures forall j :: 0 <= j < |r.data| ==> r.data[j].members == Members(rows, StatWindow, r.data[j].key)
  {
    var groups := GroupBy(rows, StatWindow);
    assert forall y :: StatWindow(y) == y.windowId;
    var total := 0;
    for i := 0 to |rows|
      invariant total == PinTotal(rows[..i])
    {
      assert rows[..i + 1][..i] == rows[..i];
      total := total + rows[i].pinCount;
    }
    assert rows[..|rows|] == rows;
    r := ShiftStats(groups, |rows|, total);
  }
}
