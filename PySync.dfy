/** The write side of `src/scraperselenium.py`: the MongoDB store the
    Python sync appends to (one collection per clinic, rows in insertion
    order), `sync_locations_range` as a specification over the portal and
    the store, the methods that carry it out, the command-line split of
    `__main__`, and the properties the sync promises: only Mondays to
    Saturdays that are missing get scraped, stored rows are never touched,
    such days are filled in, and re-running over a covered range writes
    nothing. */
module PySync {
  import opened Wrappers
  import opened Text
  import opened Dates
  import opened Portal
  import opened PyScraper
  import JsSync

  /** Each collection is its rows in the order `insert_many` added them. */
  type PyDb = map<string, seq<Visit>>

  /** `db[name]`: an absent collection reads as empty. */
  function Coll(db: PyDb, name: string): seq<Visit> {
    if name in db then db[name] else []
  }

  /** Some row of `rows` has the day `date`. */
  predicate Present(rows: seq<Visit>, date: string) {
    exists i :: 0 <= i < |rows| && rows[i].date == date
  }

  /** `if rows: coll.insert_many(rows)`: a non-empty batch is appended as it
      is, duplicates included; an empty one touches nothing. */
  function InsertInto(db: PyDb, name: string, rows: seq<Visit>): PyDb {
    if rows == [] then db else db[name := Coll(db, name) + rows]
  }

  /** `loc.replace(' ', '_')`. */
  function CollectionName(location: string): string {
    ReplaceSpaces(location)
  }

  // ---------------------------------------------------------------------------
  // The store
  // ---------------------------------------------------------------------------

  /** The MongoDB database as the Python sync writes it. */
  class PyStore {
    var collections: PyDb

    constructor (initial: PyDb)
      ensures collections == initial
    {
      collections := initial;
    }

    /** `coll.distinct('date', {'date': date})`: the day itself when some
        row has it, nothing otherwise. */
    method DistinctDates(name: string, date: string) returns (present: seq<string>)
      ensures present == (if Present(Coll(collections, name), date) then [date] else [])
    {
      var rows := Coll(collections, name);
      present := [];
      for i := 0 to |rows|
        invariant present == (if Present(rows[..i], date) then [date] else [])
      {
        if rows[i].date == date {
          present := [date];
        }
        assert rows[..i + 1][i] == rows[i];
        assert forall j :: 0 <= j < i ==> rows[..i + 1][j] == rows[..i][j];
      }
      assert rows[..|rows|] == rows;
    }

    /** `coll.insert_many(rows)`, which refuses an empty batch. */
    method InsertMany(name: string, rows: seq<Visit>)
      requires rows != []
      modifies this
      ensures collections == old(collections)[name := Coll(old(collections), name) + rows]
    {
      collections := collections[name := Coll(collections, name) + rows];
    }
  }

  // ---------------------------------------------------------------------------
  // The sync as a specification
  // ---------------------------------------------------------------------------

  /** The store, the clinic the browser session has selected, the operations
      performed so far, and the error that stopped the run, if any. */
  datatype PyRun = PyRun(db: PyDb, clinic: string, trace: seq<Op>, failure: Option<SyncError>)

  /** One turn of the day loop: skip Sundays and days already present;
      otherwise set the date and, when slots appear, read the page of the
      selected clinic and append its rows. */
  function PyDay(p: Portal, location: string, d: Date, r: PyRun): PyRun
    requires Valid(d)
  {
    if r.failure.Some? || PyWeekday(d) == 6 then r
    else
      var name := CollectionName(location);
      var iso := Iso(d);
      if Present(Coll(r.db, name), iso) then r
      else
        var t := r.trace + [SetDate(d)];
        match p.render(r.clinic, iso)
        case None => r.(trace := t)
        case Some(page) =>
          if !HasSlots(page) then r.(trace := t)
          else
            match Extract(page, location, iso)
            case Failure(e) => r.(trace := t + [Scrape(location, d)], failure := Some(Extraction(location, d, e)))
            case Success(rows) => r.(db := InsertInto(r.db, name, rows), trace := t + [Scrape(location, d)])
  }

  /** The day loop over `ds`, in order. */
  function PyDays(p: Portal, location: string, ds: seq<Date>, r: PyRun): PyRun
    requires AllValid(ds)
    decreases |ds|
  {
    if ds == [] then r else PyDays(p, location, ds[1..], PyDay(p, location, ds[0], r))
  }

  /** One turn of the location loop: `change_location` (which keeps the old
      clinic when the name is not offered), parse both ends of the range,
      then the day loop. */
  function PyLocation(p: Portal, location: string, startDate: string, endDate: string, r: PyRun): PyRun {
    if r.failure.Some? then r
    else
      var r1 := r.(trace := r.trace + [ChangeLocation(location)],
                   clinic := if location in p.clinics then location else r.clinic);
      match ParseIso(startDate)
      case None => r1.(failure := Some(BadDate(startDate)))
      case Some(a) =>
        match ParseIso(endDate)
        case None => r1.(failure := Some(BadDate(endDate)))
        case Some(b) => DateRangeValid(a, b); PyDays(p, location, DateRange(a, b), r1)
  }

  function PyLocations(p: Portal, locations: seq<string>, startDate: string, endDate: string, r: PyRun): PyRun
    decreases |locations|
  {
    if locations == [] then r
    else PyLocations(p, locations[1..], startDate, endDate, PyLocation(p, locations[0], startDate, endDate, r))
  }

  /** `sync_locations_range(locations, start_date, end_date)` run against the
      portal `p` and the store `db0`. */
  function PySync(p: Portal, db0: PyDb, locations: seq<string>, startDate: string, endDate: string): PyRun {
    if !p.loginSucceeds then PyRun(db0, p.home, [Login], Some(AuthError))
    else PyLocations(p, locations, startDate, endDate, PyRun(db0, p.home, [Login], None))
  }

  // ---------------------------------------------------------------------------
  // The sync as the script runs it
  // ---------------------------------------------------------------------------

  method SyncLocationsRange(store: PyStore, p: Portal, locations: seq<string>,
                            startDate: string, endDate: string)
    returns (failure: Option<SyncError>, clinic: string, trace: seq<Op>)
    modifies store
    ensures PyRun(store.collections, clinic, trace, failure)
         == PySync(p, old(store.collections), locations, startDate, endDate)
  {
    trace, clinic := [Login], p.home;
    if !p.loginSucceeds {
      return Some(AuthError), clinic, trace;
    }
    ghost var r0 := PyRun(store.collections, clinic, trace, None);
    for i := 0 to |locations|
      invariant PyLocations(p, locations, startDate, endDate, r0)
             == PyLocations(p, locations[i..], startDate, endDate, PyRun(store.collections, clinic, trace, None))
    {
      assert locations[i..][1..] == locations[i + 1..];
      var loc := locations[i];
      trace := trace + [ChangeLocation(loc)];
      if loc in p.clinics {
        clinic := loc;
      }
      var start := ParseIso(startDate);
      if start.None? {
        failure := Some(BadDate(startDate));
        PyLocationsFailed(p, locations[i + 1..], startDate, endDate, PyRun(store.collections, clinic, trace, failure));
        return;
      }
      var end := ParseIso(endDate);
      if end.None? {
        failure := Some(BadDate(endDate));
        PyLocationsFailed(p, locations[i + 1..], startDate, endDate, PyRun(store.collections, clinic, trace, failure));
        return;
      }
      failure, trace := SyncDays(store, p, loc, start.value, end.value, clinic, trace);
      if failure.Some? {
        PyLocationsFailed(p, locations[i + 1..], startDate, endDate, PyRun(store.collections, clinic, trace, failure));
        return;
      }
    }
    failure := None;
  }

  /** The day loop: `start + timedelta(days=i)` for `i` in
      `range((end - start).days + 1)`. */
  method SyncDays(store: PyStore, p: Portal, loc: string, start: Date, end: Date,
                  clinic: string, trace0: seq<Op>)
    returns (failure: Option<SyncError>, trace: seq<Op>)
    requires Valid(start) && Valid(end)
    modifies store
    ensures (DateRangeValid(start, end);
             PyRun(store.collections, clinic, trace, failure)
             == PyDays(p, loc, DateRange(start, end), PyRun(old(store.collections), clinic, trace0, None)))
  {
    DateRangeValid(start, end);
    ghost var days := DateRange(start, end);
    ghost var r0 := PyRun(store.collections, clinic, trace0, None);
    var n := DayCount(start, end);
    trace, failure := trace0, None;
    var d := start;
    for i := 0 to n
      invariant failure.None? && (i < n ==> d == days[i])
      invariant PyDays(p, loc, days, r0) == PyDays(p, loc, days[i..], PyRun(store.collections, clinic, trace, None))
    {
      PyDaysStep(p, loc, days, i, PyRun(store.collections, clinic, trace, None));
      failure, trace := SyncDay(store, p, loc, d, clinic, trace);
      if failure.Some? {
        PyDaysFailed(p, loc, days[i + 1..], PyRun(store.collections, clinic, trace, failure));
        return;
      }
      DaysAt(start, n, i);
      d := Next(d);
    }
    assert days[n..] == [];
  }

  /** One day: `weekday()`, `distinct`, `set_date`, the page read and
      `insert_many`. */
  method SyncDay(store: PyStore, p: Portal, loc: string, d: Date, clinic: string, trace0: seq<Op>)
    returns (failure: Option<SyncError>, trace: seq<Op>)
    requires Valid(d)
    modifies store
    ensures PyRun(store.collections, clinic, trace, failure)
         == PyDay(p, loc, d, PyRun(old(store.collections), clinic, trace0, None))
  {
    trace, failure := trace0, None;
    if PyWeekday(d) == 6 {
      return;
    }
    var iso := Iso(d);
    var name := CollectionName(loc);
    var present := store.DistinctDates(name, iso);
    if iso in present {
      return;
    }
    trace := trace + [SetDate(d)];
    var shown := p.render(clinic, iso);
    if shown.None? || !HasSlots(shown.value) {
      return;
    }
    var rows := ScrapeVisitsForDate(shown.value, loc, iso);
    trace := trace + [Scrape(loc, d)];
    if rows.Failure? {
      failure := Some(Extraction(loc, d, rows.error));
      return;
    }
    if rows.value != [] {
      store.InsertMany(name, rows.value);
    }
  }

  lemma PyDaysStep(p: Portal, loc: string, ds: seq<Date>, k: nat, r: PyRun)
    requires AllValid(ds) && k < |ds|
    ensures PyDays(p, loc, ds[k..], r) == PyDays(p, loc, ds[k + 1..], PyDay(p, loc, ds[k], r))
  {
    assert ds[k..][1..] == ds[k + 1..];
  }

  // ---------------------------------------------------------------------------
  // The command line
  // ---------------------------------------------------------------------------

  /** What `__main__` passes on to the sync. */
  datatype Invocation = Invocation(locations: seq<string>, startDate: string, endDate: string)

  /** The split of `sys.argv[1:]`: two arguments are the range for every
      clinic; more are clinics followed by the range; fewer are a usage
      error with exit status 1. */
  function ParseArgs(args: seq<string>): (r: Result<Invocation, int>)
    ensures r.Failure? <==> |args| < 2
    ensures r.Failure? ==> r.error == 1
    ensures r.Success? ==>
      r.value.locations + [r.value.startDate, r.value.endDate]
      == (if |args| == 2 then AllLocations + args else args)
    ensures r.Success? && |args| > 2 ==> r.value.locations != []
  {
    if |args| == 2 then Success(Invocation(AllLocations, args[0], args[1]))
    else if |args| >= 3 then Success(Invocation(args[..|args| - 2], args[|args| - 2], args[|args| - 1]))
    else Failure(1)
  }

  /** The script's entry point: a usage error writes nothing; otherwise the
      sync runs over what the arguments name. */
  method RunScript(store: PyStore, p: Portal, args: seq<string>)
    returns (exitStatus: Option<int>, run: PyRun)
    modifies store
    ensures exitStatus.Some? <==> ParseArgs(args).Failure?
    ensures exitStatus.Some? ==> exitStatus.value == 1 && store.collections == old(store.collections)
    ensures exitStatus.None? ==>
      var inv := ParseArgs(args).value;
      run == PySync(p, old(store.collections), inv.locations, inv.startDate, inv.endDate)
      && store.collections == run.db
  {
    var parsed := ParseArgs(args);
    if parsed.Failure? {
      return Some(parsed.error), PyRun(store.collections, p.home, [], None);
    }
    var inv := parsed.value;
    var failure, clinic, trace := SyncLocationsRange(store, p, inv.locations, inv.startDate, inv.endDate);
    exitStatus, run := None, PyRun(store.collections, clinic, trace, failure);
  }

  /** Exactly two arguments sync all six clinics over that range. */
  lemma ParseTwoArgs(startDate: string, endDate: string)
    ensures ParseArgs([startDate, endDate]) == Success(Invocation(AllLocations, startDate, endDate))
  {
  }

  /** A longer argument list keeps its clinics in order, and gives its last
      two arguments as the range. */
  lemma ParseLongArgs(locations: seq<string>, startDate: string, endDate: string)
    requires locations != []
    ensures ParseArgs(locations + [startDate, endDate]) == Success(Invocation(locations, startDate, endDate))
  {
    var args := locations + [startDate, endDate];
    assert args[..|args| - 2] == locations;
  }

  // ---------------------------------------------------------------------------
  // Properties of the sync
  // ---------------------------------------------------------------------------

  /** Once a run has stopped, the remaining turns change nothing. */
  lemma {:induction false} PyDaysFailed(p: Portal, location: string, ds: seq<Date>, r: PyRun)
    requires AllValid(ds) && r.failure.Some?
    ensures PyDays(p, location, ds, r) == r
    decreases |ds|
  {
    if ds != [] {
      PyDaysFailed(p, location, ds[1..], r);
    }
  }

  lemma {:induction false} PyLocationsFailed(p: Portal, locations: seq<string>, startDate: string, endDate: string, r: PyRun)
    requires r.failure.Some?
    ensures PyLocations(p, locations, startDate, endDate, r) == r
    decreases |locations|
  {
    if locations != [] {
      PyLocationsFailed(p, locations[1..], startDate, endDate, r);
    }
  }

  /** Rows are only ever appended: every collection of `db0` is a prefix of
      the same collection in `db`. */
  predicate Extends(db0: PyDb, db: PyDb) {
    forall name :: name in db0 ==> name in db && db0[name] <= db[name]
  }

  lemma ExtendsTrans(db0: PyDb, db1: PyDb, db2: PyDb)
    requires Extends(db0, db1) && Extends(db1, db2)
    ensures Extends(db0, db2)
  {
  }

  /** A day present before is present later. */
  lemma ExtendsKeepsPresent(db0: PyDb, db: PyDb, name: string, date: string)
    requires Extends(db0, db) && Present(Coll(db0, name), date)
    ensures Present(Coll(db, name), date)
  {
    var i :| 0 <= i < |Coll(db0, name)| && Coll(db0, name)[i].date == date;
    assert Coll(db, name)[i] == Coll(db0, name)[i];
  }

  lemma PyDayExtends(p: Portal, location: string, d: Date, r: PyRun)
    requires Valid(d)
    ensures Extends(r.db, PyDay(p, location, d, r).db)
    ensures PyDay(p, location, d, r).clinic == r.clinic
  {
  }

  lemma {:induction false} PyDaysExtends(p: Portal, location: string, ds: seq<Date>, r: PyRun)
    requires AllValid(ds)
    ensures Extends(r.db, PyDays(p, location, ds, r).db)
    ensures PyDays(p, location, ds, r).clinic == r.clinic
    decreases |ds|
  {
    if ds != [] {
      var r1 := PyDay(p, location, ds[0], r);
      PyDayExtends(p, location, ds[0], r);
      PyDaysExtends(p, location, ds[1..], r1);
      ExtendsTrans(r.db, r1.db, PyDays(p, location, ds[1..], r1).db);
    }
  }

  lemma {:induction false} PyLocationsExtends(p: Portal, locations: seq<string>, startDate: string, endDate: string, r: PyRun)
    ensures Extends(r.db, PyLocations(p, locations, startDate, endDate, r).db)
    decreases |locations|
  {
    if locations != [] {
      var r1 := PyLocation(p, locations[0], startDate, endDate, r);
      if r.failure.None? && ParseIso(startDate).Some? && ParseIso(endDate).Some? {
        var a, b := ParseIso(startDate).value, ParseIso(endDate).value;
        DateRangeValid(a, b);
        PyDaysExtends(p, locations[0], DateRange(a, b),
                      r.(trace := r.trace + [ChangeLocation(locations[0])],
                         clinic := if locations[0] in p.clinics then locations[0] else r.clinic));
      }
      PyLocationsExtends(p, locations[1..], startDate, endDate, r1);
      ExtendsTrans(r.db, r1.db, PyLocations(p, locations[1..], startDate, endDate, r1).db);
    }
  }

  /** A sync never changes or removes a stored row: it only appends. */
  lemma PySyncExtends(p: Portal, db0: PyDb, locations: seq<string>, startDate: string, endDate: string)
    ensures Extends(db0, PySync(p, db0, locations, startDate, endDate).db)
  {
    if p.loginSucceeds {
      PyLocationsExtends(p, locations, startDate, endDate, PyRun(db0, p.home, [Login], None));
    }
  }

  /** What every date and scrape operation of a run satisfies: a valid day
      of the range that is not a Sunday, and for a scrape a requested clinic
      whose collection did not hold that day when the run began. */
  predicate OpOk(db0: PyDb, locations: seq<string>, startDate: string, endDate: string, op: Op) {
    && (op.SetDate? ==> Valid(op.day) && !IsSunday(op.day) && InRange(startDate, endDate, op.day))
    && (op.Scrape? ==>
          && op.location in locations && Valid(op.day) && !IsSunday(op.day)
          && InRange(startDate, endDate, op.day)
          && !Present(Coll(db0, CollectionName(op.location)), Iso(op.day)))
  }

  predicate TraceOk(db0: PyDb, locations: seq<string>, startDate: string, endDate: string, t: seq<Op>) {
    forall i :: 0 <= i < |t| ==> OpOk(db0, locations, startDate, endDate, t[i])
  }

  predicate Inv(db0: PyDb, locations: seq<string>, startDate: string, endDate: string, r: PyRun) {
    Extends(db0, r.db) && TraceOk(db0, locations, startDate, endDate, r.trace)
  }

  lemma TraceOkAppend(db0: PyDb, locations: seq<string>, startDate: string, endDate: string, t: seq<Op>, u: seq<Op>)
    requires TraceOk(db0, locations, startDate, endDate, t) && TraceOk(db0, locations, startDate, endDate, u)
    ensures TraceOk(db0, locations, startDate, endDate, t + u)
  {
    forall i | 0 <= i < |t + u|
      ensures OpOk(db0, locations, startDate, endDate, (t + u)[i])
    {
      if i >= |t| {
        assert (t + u)[i] == u[i - |t|];
      }
    }
  }

  /** A day either leaves the trace alone or, for a day not yet stored,
      appends `SetDate` and possibly `Scrape`. */
  lemma PyDayTrace(p: Portal, location: string, d: Date, r: PyRun)
    requires Valid(d)
    ensures var t := PyDay(p, location, d, r).trace;
      || t == r.trace
      || (&& PyWeekday(d) != 6 && !Present(Coll(r.db, CollectionName(location)), Iso(d))
          && (t == r.trace + [SetDate(d)] || t == r.trace + [SetDate(d), Scrape(location, d)]))
  {
  }

  lemma PyDayInv(p: Portal, locations: seq<string>, startDate: string, endDate: string,
                 db0: PyDb, location: string, d: Date, r: PyRun)
    requires Valid(d) && location in locations && InRange(startDate, endDate, d)
    requires Inv(db0, locations, startDate, endDate, r)
    ensures Inv(db0, locations, startDate, endDate, PyDay(p, location, d, r))
  {
    var r1 := PyDay(p, location, d, r);
    PyDayExtends(p, location, d, r);
    PyDayTrace(p, location, d, r);
    ExtendsTrans(db0, r.db, r1.db);
    if r1.trace != r.trace {
      var name := CollectionName(location);
      var iso := Iso(d);
      if Present(Coll(db0, name), iso) {
        ExtendsKeepsPresent(db0, r.db, name, iso);
      }
      var ops := if r1.trace == r.trace + [SetDate(d)] then [SetDate(d)] else [SetDate(d), Scrape(location, d)];
      assert r1.trace == r.trace + ops;
      assert TraceOk(db0, locations, startDate, endDate, ops);
      TraceOkAppend(db0, locations, startDate, endDate, r.trace, ops);
    }
  }

  lemma {:induction false} PyDaysInv(p: Portal, locations: seq<string>, startDate: string, endDate: string,
                                     db0: PyDb, location: string, ds: seq<Date>, r: PyRun)
    requires AllValid(ds) && location in locations
    requires forall i :: 0 <= i < |ds| ==> InRange(startDate, endDate, ds[i])
    requires Inv(db0, locations, startDate, endDate, r)
    ensures Inv(db0, locations, startDate, endDate, PyDays(p, location, ds, r))
    decreases |ds|
  {
    if ds != [] {
      PyDayInv(p, locations, startDate, endDate, db0, location, ds[0], r);
      PyDaysInv(p, locations, startDate, endDate, db0, location, ds[1..], PyDay(p, location, ds[0], r));
    }
  }

  lemma {:induction false} PyLocationsInv(p: Portal, locations: seq<string>, startDate: string, endDate: string,
                                          db0: PyDb, ls: seq<string>, r: PyRun)
    requires forall l :: l in ls ==> l in locations
    requires Inv(db0, locations, startDate, endDate, r)
    ensures Inv(db0, locations, startDate, endDate, PyLocations(p, ls, startDate, endDate, r))
    decreases |ls|
  {
    if ls != [] {
      var loc := ls[0];
      var r1 := PyLocation(p, loc, startDate, endDate, r);
      if r.failure.None? {
        var t := r.trace + [ChangeLocation(loc)];
        TraceOkAppend(db0, locations, startDate, endDate, r.trace, [ChangeLocation(loc)]);
        if ParseIso(startDate).Some? && ParseIso(endDate).Some? {
          DateRangeInRange(startDate, endDate);
          var a, b := ParseIso(startDate).value, ParseIso(endDate).value;
          PyDaysInv(p, locations, startDate, endDate, db0, loc, DateRange(a, b),
                    r.(trace := t, clinic := if loc in p.clinics then loc else r.clinic));
        }
      }
      assert forall l :: l in ls[1..] ==> l in ls;
      PyLocationsInv(p, locations, startDate, endDate, db0, ls[1..], r1);
    }
  }

  /** Every date set and every page read by a sync is a Monday to Saturday
      inside the requested range; every page read is for a requested clinic
      on a day its collection did not hold when the sync began. */
  lemma PySyncOps(p: Portal, db0: PyDb, locations: seq<string>, startDate: string, endDate: string)
    ensures TraceOk(db0, locations, startDate, endDate, PySync(p, db0, locations, startDate, endDate).trace)
  {
    if p.loginSucceeds {
      PyLocationsInv(p, locations, startDate, endDate, db0, locations, PyRun(db0, p.home, [Login], None));
    }
  }

  /** A day of a clinic is covered when its collection holds the day, or
      selecting the day on the clinic's page shows no slots or nothing to
      read. */
  predicate Covered(p: Portal, db: PyDb, location: string, d: Date)
    requires Valid(d)
  {
    var iso := Iso(d);
    Present(Coll(db, CollectionName(location)), iso)
    || match p.render(location, iso)
       case None => true
       case Some(page) => !HasSlots(page) || Extract(page, location, iso) == Success([])
  }

  lemma CoveredExtends(p: Portal, db: PyDb, db1: PyDb, location: string, d: Date)
    requires Valid(d) && Extends(db, db1) && Covered(p, db, location, d)
    ensures Covered(p, db1, location, d)
  {
    if Present(Coll(db, CollectionName(location)), Iso(d)) {
      ExtendsKeepsPresent(db, db1, CollectionName(location), Iso(d));
    }
  }

  lemma PyDayCovers(p: Portal, location: string, d: Date, r: PyRun)
    requires Valid(d) && !IsSunday(d) && r.failure.None? && r.clinic == location
    requires PyDay(p, location, d, r).failure.None?
    ensures Covered(p, PyDay(p, location, d, r).db, location, d)
  {
    var name := CollectionName(location);
    var iso := Iso(d);
    if !Present(Coll(r.db, name), iso) && p.render(location, iso).Some? {
      var page := p.render(location, iso).value;
      if HasSlots(page) {
        var rows := Extract(page, location, iso).value;
        if rows != [] {
          var all := Coll(r.db, name) + rows;
          assert all[|Coll(r.db, name)|] == rows[0];
          ExtractRows(page, location, iso);
          assert rows[0] in rows;
        }
      }
    }
  }

  lemma {:induction false} PyDaysCover(p: Portal, location: string, ds: seq<Date>, r: PyRun)
    requires AllValid(ds) && r.clinic == location
    requires PyDays(p, location, ds, r).failure.None?
    ensures forall i :: 0 <= i < |ds| && !IsSunday(ds[i]) ==>
      Covered(p, PyDays(p, location, ds, r).db, location, ds[i])
    decreases |ds|
  {
    if ds != [] {
      var r1 := PyDay(p, location, ds[0], r);
      var last := PyDays(p, location, ds[1..], r1);
      if r1.failure.Some? {
        PyDaysFailed(p, location, ds[1..], r1);
      }
      if r.failure.Some? {
        PyDaysFailed(p, location, ds, r);
      }
      PyDayExtends(p, location, ds[0], r);
      PyDaysCover(p, location, ds[1..], r1);
      PyDaysExtends(p, location, ds[1..], r1);
      if !IsSunday(ds[0]) {
        PyDayCovers(p, location, ds[0], r);
        CoveredExtends(p, r1.db, last.db, location, ds[0]);
      }
      forall i | 1 <= i < |ds| && !IsSunday(ds[i])
        ensures Covered(p, last.db, location, ds[i])
      {
        assert ds[i] == ds[1..][i - 1];
      }
    }
  }

  lemma {:induction false} PyLocationsCover(p: Portal, ls: seq<string>, a: Date, b: Date, r: PyRun)
    requires Valid(a) && Valid(b)
    requires forall l :: l in ls ==> l in p.clinics
    requires PyLocations(p, ls, Iso(a), Iso(b), r).failure.None?
    ensures (DateRangeValid(a, b);
             forall l, i :: l in ls && 0 <= i < |DateRange(a, b)| && !IsSunday(DateRange(a, b)[i]) ==>
               Covered(p, PyLocations(p, ls, Iso(a), Iso(b), r).db, l, DateRange(a, b)[i]))
    decreases |ls|
  {
    DateRangeValid(a, b);
    if ls != [] {
      ParseIsoOfIso(a);
      ParseIsoOfIso(b);
      var ds := DateRange(a, b);
      var r1 := PyLocation(p, ls[0], Iso(a), Iso(b), r);
      var last := PyLocations(p, ls[1..], Iso(a), Iso(b), r1);
      if r1.failure.Some? {
        PyLocationsFailed(p, ls[1..], Iso(a), Iso(b), r1);
      }
      var r0 := r.(trace := r.trace + [ChangeLocation(ls[0])], clinic := ls[0]);
      assert r1 == PyDays(p, ls[0], ds, r0);
      PyDaysCover(p, ls[0], ds, r0);
      assert forall l :: l in ls[1..] ==> l in ls;
      PyLocationsCover(p, ls[1..], a, b, r1);
      PyLocationsExtends(p, ls[1..], Iso(a), Iso(b), r1);
      forall l, i | l in ls && 0 <= i < |ds| && !IsSunday(ds[i])
        ensures Covered(p, last.db, l, ds[i])
      {
        if l == ls[0] {
          CoveredExtends(p, r1.db, last.db, l, ds[i]);
        } else {
          assert l in ls[1..];
        }
      }
    }
  }

  /** After a sync over clinics the portal offers that ends without error,
      every Monday to Saturday of the range is covered for every requested
      clinic: stored, or shown by the portal with nothing to read. */
  lemma PySyncCovers(p: Portal, db0: PyDb, locations: seq<string>, a: Date, b: Date)
    requires Valid(a) && Valid(b)
    requires forall l :: l in locations ==> l in p.clinics
    requires PySync(p, db0, locations, Iso(a), Iso(b)).failure.None?
    ensures forall l, d :: l in locations && Valid(d) && DateLe(a, d) && DateLe(d, b) && !IsSunday(d) ==>
      Covered(p, PySync(p, db0, locations, Iso(a), Iso(b)).db, l, d)
  {
    DateRangeSpec(a, b);
    var ds := DateRange(a, b);
    PyLocationsCover(p, locations, a, b, PyRun(db0, p.home, [Login], None));
    forall l, d | l in locations && Valid(d) && DateLe(a, d) && DateLe(d, b) && !IsSunday(d)
      ensures Covered(p, PySync(p, db0, locations, Iso(a), Iso(b)).db, l, d)
    {
      var i :| 0 <= i < |ds| && ds[i] == d;
    }
  }

  /** Unlike the JavaScript sync, which stops with `LocationNotFound`, a
      clinic the dropdown does not offer leaves the previous clinic
      selected: its pages are read and its rows are stored under the
      requested name. */
  lemma StaleClinic(p: Portal, location: string, startDate: string, endDate: string, r: PyRun)
    requires r.failure.None? && location !in p.clinics
    ensures PyLocation(p, location, startDate, endDate, r).clinic == r.clinic
    ensures JsSync.JsLocation(p, location, startDate, endDate, JsSync.JsRun(map[], r.trace, None)).failure
         == Some(LocationNotFound(location))
  {
    var r1 := r.(trace := r.trace + [ChangeLocation(location)]);
    if ParseIso(startDate).Some? && ParseIso(endDate).Some? {
      var a, b := ParseIso(startDate).value, ParseIso(endDate).value;
      DateRangeValid(a, b);
      PyDaysExtends(p, location, DateRange(a, b), r1);
    }
  }

  /** The operations of a sync that finds every day already stored: one
      clinic change per requested location. */
  function ChangeOps(locations: seq<string>): (t: seq<Op>)
    ensures |t| == |locations|
    ensures forall i :: 0 <= i < |t| ==> t[i] == ChangeLocation(locations[i])
  {
    if locations == [] then [] else [ChangeLocation(locations[0])] + ChangeOps(locations[1..])
  }

  predicate AllStored(db: PyDb, location: string, ds: seq<Date>)
    requires AllValid(ds)
  {
    forall i :: 0 <= i < |ds| && !IsSunday(ds[i]) ==> Present(Coll(db, CollectionName(location)), Iso(ds[i]))
  }

  lemma {:induction false} PyDaysStored(p: Portal, location: string, ds: seq<Date>, r: PyRun)
    requires AllValid(ds) && AllStored(r.db, location, ds)
    ensures PyDays(p, location, ds, r) == r
    decreases |ds|
  {
    if ds != [] {
      assert PyDay(p, location, ds[0], r) == r;
      assert AllStored(r.db, location, ds[1..]) by {
        forall i | 0 <= i < |ds[1..]| && !IsSunday(ds[1..][i])
          ensures Present(Coll(r.db, CollectionName(location)), Iso(ds[1..][i]))
        {
          assert ds[1..][i] == ds[i + 1];
        }
      }
      PyDaysStored(p, location, ds[1..], r);
    }
  }

  lemma PyLocationStored(p: Portal, location: string, a: Date, b: Date, r: PyRun)
    requires Valid(a) && Valid(b) && r.failure.None?
    requires (DateRangeValid(a, b); AllStored(r.db, location, DateRange(a, b)))
    ensures PyLocation(p, location, Iso(a), Iso(b), r)
         == r.(trace := r.trace + [ChangeLocation(location)],
               clinic := if location in p.clinics then location else r.clinic)
  {
    ParseIsoOfIso(a);
    ParseIsoOfIso(b);
    DateRangeValid(a, b);
    PyDaysStored(p, location, DateRange(a, b),
                 r.(trace := r.trace + [ChangeLocation(location)],
                    clinic := if location in p.clinics then location else r.clinic));
  }

  lemma {:induction false} PyLocationsStored(p: Portal, ls: seq<string>, a: Date, b: Date, r: PyRun)
    requires Valid(a) && Valid(b) && r.failure.None?
    requires (DateRangeValid(a, b); forall l :: l in ls ==> AllStored(r.db, l, DateRange(a, b)))
    ensures var last := PyLocations(p, ls, Iso(a), Iso(b), r);
      last.failure.None? && last.db == r.db && last.trace == r.trace + ChangeOps(ls)
    decreases |ls|
  {
    if ls != [] {
      PyLocationStored(p, ls[0], a, b, r);
      var r1 := PyLocation(p, ls[0], Iso(a), Iso(b), r);
      assert forall l :: l in ls[1..] ==> l in ls;
      PyLocationsStored(p, ls[1..], a, b, r1);
      assert ChangeOps(ls) == [ChangeLocation(ls[0])] + ChangeOps(ls[1..]);
      JsSync.TraceAssoc(r.trace, ChangeLocation(ls[0]), ChangeOps(ls[1..]));
    }
  }

  /** Re-running a sync over a range whose Mondays to Saturdays are all
      present for every requested clinic writes nothing, ends without error,
      and only logs in and changes clinic. */
  lemma PySyncIdle(p: Portal, db0: PyDb, locations: seq<string>, a: Date, b: Date)
    requires p.loginSucceeds && Valid(a) && Valid(b)
    requires (DateRangeValid(a, b); forall l :: l in locations ==> AllStored(db0, l, DateRange(a, b)))
    ensures var r := PySync(p, db0, locations, Iso(a), Iso(b));
      r.db == db0 && r.failure.None? && r.trace == [Login] + ChangeOps(locations)
  {
    PyLocationsStored(p, locations, a, b, PyRun(db0, p.home, [Login], None));
  }

  /** The same row scraped twice is stored twice by the Python append, and
      once by the JavaScript upsert. */
  lemma DuplicatesKept(db: PyDb, name: string, v: Visit)
    ensures Coll(InsertInto(db, name, [v, v]), name) == Coll(db, name) + [v, v]
    ensures |JsSync.Coll(JsSync.UpsertInto(map[], name, [v, v]), name)| == 1
  {
    var c := JsSync.UpsertAll(map[], [v, v]);
    assert [v, v][..1] == [v];
    assert JsSync.UpsertAll(map[], [v]) == map[KeyOf(v) := v.(reason := None)];
    assert c.Keys == {KeyOf(v)};
  }
}
