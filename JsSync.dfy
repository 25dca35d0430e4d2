/** The write side of `src/scraper.js`: the MongoDB store the JavaScript
    sync upserts into (one collection per clinic, one row per natural key),
    `syncLocationsRange` as a specification over the portal and the store,
    the methods that carry it out, and the properties the sync promises:
    only Mondays to Saturdays that are missing get scraped, nothing stored
    is lost, such days are filled in, and re-running over a covered range
    changes nothing. */
module JsSync {
  import opened Wrappers
  import opened Text
  import opened Dates
  import opened Portal
  import opened JsScraper

  type Collection = map<VisitKey, Visit>
  type Db = map<string, Collection>

  /** Every row is stored under its own natural key, so no two rows share one. */
  predicate Keyed(c: Collection) {
    forall k :: k in c ==> KeyOf(c[k]) == k
  }

  predicate AllKeyed(db: Db) {
    forall name :: name in db ==> Keyed(db[name])
  }

  /** `db.collection(name)`: an absent collection reads as empty. */
  function Coll(db: Db, name: string): Collection {
    if name in db then db[name] else map[]
  }

  /** `coll.findOne({ date })` finds a row. */
  predicate HasDate(c: Collection, date: string) {
    exists k :: k in c && c[k].date == date
  }

  /** `updateOne(key, { $set: v }, { upsert: true })`: the row with `v`'s key
      takes every field `v` carries; `v` carries no `reason`, so one already
      stored survives. */
  function Upsert(c: Collection, v: Visit): Collection {
    var k := KeyOf(v);
    c[k := v.(reason := if k in c then c[k].reason else None)]
  }

  /** The upserts of a batch, in order. */
  function UpsertAll(c: Collection, vs: seq<Visit>): Collection
    decreases |vs|
  {
    if vs == [] then c else Upsert(UpsertAll(c, vs[..|vs| - 1]), vs[|vs| - 1])
  }

  /** The upserts of one day into the collection `name`; a day with no rows
      touches nothing, so it does not create the collection. */
  function UpsertInto(db: Db, name: string, vs: seq<Visit>): Db {
    if vs == [] then db else db[name := UpsertAll(Coll(db, name), vs)]
  }

  /** The position of the last row of `vs` with key `k`. */
  function LastWithKey(vs: seq<Visit>, k: VisitKey): (r: Option<nat>)
    ensures r.Some? ==>
      (r.value < |vs| && KeyOf(vs[r.value]) == k && forall j :: r.value < j < |vs| ==> KeyOf(vs[j]) != k)
    ensures r.None? ==> forall j :: 0 <= j < |vs| ==> KeyOf(vs[j]) != k
  {
    if vs == [] then None
    else if KeyOf(vs[|vs| - 1]) == k then Some(|vs| - 1)
    else LastWithKey(vs[..|vs| - 1], k)
  }

  /** After a batch, a key no row of the batch has is exactly as before; a
      key some row has holds the last such row, with the reason that was
      stored under it (none for a new row). */
  lemma {:induction false} UpsertAllAt(c: Collection, vs: seq<Visit>, k: VisitKey)
    ensures var r := UpsertAll(c, vs);
      match LastWithKey(vs, k)
      case None => (k in r <==> k in c) && (k in c ==> r[k] == c[k])
      case Some(i) => k in r && r[k] == vs[i].(reason := if k in c then c[k].reason else None)
    decreases |vs|
  {
    if vs != [] {
      var init := vs[..|vs| - 1];
      UpsertAllAt(c, init, k);
      var last := LastWithKey(init, k);
      if KeyOf(vs[|vs| - 1]) != k {
        assert LastWithKey(vs, k) == last;
      } else if last.Some? {
        assert init[last.value] == vs[last.value];
      }
    }
  }

  lemma UpsertKeyed(c: Collection, v: Visit)
    requires Keyed(c)
    ensures Keyed(Upsert(c, v))
  {
  }

  /** A batch keeps every row under its own key. */
  lemma {:induction false} UpsertAllKeyed(c: Collection, vs: seq<Visit>)
    requires Keyed(c)
    ensures Keyed(UpsertAll(c, vs))
    decreases |vs|
  {
    if vs != [] {
      UpsertAllKeyed(c, vs[..|vs| - 1]);
    }
  }

  /** Upserting the same batch twice is the same as upserting it once. */
  lemma UpsertAllIdempotent(c: Collection, vs: seq<Visit>)
    ensures UpsertAll(UpsertAll(c, vs), vs) == UpsertAll(c, vs)
  {
    var once := UpsertAll(c, vs);
    var twice := UpsertAll(once, vs);
    forall k | true
      ensures (k in twice <==> k in once) && (k in once ==> twice[k] == once[k])
    {
      UpsertAllAt(c, vs, k);
      UpsertAllAt(once, vs, k);
    }
  }

  /** The keys after a batch are the old keys and the batch's keys. */
  lemma UpsertAllKeys(c: Collection, vs: seq<Visit>)
    ensures UpsertAll(c, vs).Keys == c.Keys + (set i | 0 <= i < |vs| :: KeyOf(vs[i]))
  {
    var r := UpsertAll(c, vs);
    forall k | true
      ensures k in r <==> k in c || exists i :: 0 <= i < |vs| && KeyOf(vs[i]) == k
    {
      UpsertAllAt(c, vs, k);
    }
  }

  /** A day found in a keyed collection is still found after a batch. */
  lemma UpsertAllKeepsDate(c: Collection, vs: seq<Visit>, date: string)
    requires Keyed(c) && HasDate(c, date)
    ensures HasDate(UpsertAll(c, vs), date)
  {
    var k :| k in c && c[k].date == date;
    UpsertAllAt(c, vs, k);
  }

  /** After a non-empty batch of rows of one day that day is found. */
  lemma UpsertAllAddsDate(c: Collection, vs: seq<Visit>, date: string)
    requires vs != [] && forall v :: v in vs ==> v.date == date
    ensures HasDate(UpsertAll(c, vs), date)
  {
    var k := KeyOf(vs[0]);
    UpsertAllAt(c, vs, k);
    var i := LastWithKey(vs, k).value;
    assert vs[i] in vs;
  }

  // ---------------------------------------------------------------------------
  // The store
  // ---------------------------------------------------------------------------

  /** The MongoDB database as the sync writes it. */
  class JsStore {
    var collections: Db

    ghost predicate Valid()
      reads this
    {
      AllKeyed(collections)
    }

    constructor (initial: Db)
      requires AllKeyed(initial)
      ensures collections == initial && Valid()
    {
      collections := initial;
    }

    /** `coll.findOne({ date })` on the collection `name`. */
    method FindOneByDate(name: string, date: string) returns (found: bool)
      ensures found == HasDate(Coll(collections, name), date)
    {
      var c := Coll(collections, name);
      found := exists k | k in c :: c[k].date == date;
    }

    /** One `updateOne(..., { upsert: true })` on the collection `name`. */
    method UpdateOne(name: string, v: Visit)
      requires Valid()
      modifies this
      ensures Valid()
      ensures collections == old(collections)[name := Upsert(Coll(old(collections), name), v)]
    {
      UpsertKeyed(Coll(collections, name), v);
      collections := collections[name := Upsert(Coll(collections, name), v)];
    }
  }

  /** The upsert loop of one day, counting the rows it writes. */
  method UpsertVisits(store: JsStore, name: string, visits: seq<Visit>) returns (count: nat)
    requires store.Valid()
    modifies store
    ensures store.Valid()
    ensures store.collections == UpsertInto(old(store.collections), name, visits)
    ensures count == |visits|
  {
    ghost var db0 := store.collections;
    count := 0;
    for j := 0 to |visits|
      invariant store.Valid()
      invariant store.collections == UpsertInto(db0, name, visits[..j])
      invariant count == j
    {
      assert visits[..j + 1][..j] == visits[..j];
      assert UpsertAll(Coll(db0, name), visits[..j + 1])
          == Upsert(UpsertAll(Coll(db0, name), visits[..j]), visits[j]);
      store.UpdateOne(name, visits[j]);
      count := count + 1;
    }
    assert visits[..|visits|] == visits;
  }

  // ---------------------------------------------------------------------------
  // The sync as a specification
  // ---------------------------------------------------------------------------

  /** The store, the operations performed so far, and the error that stopped
      the run, if any. */
  datatype JsRun = JsRun(db: Db, trace: seq<Op>, failure: Option<SyncError>)

  function CollectionName(location: string): string {
    ReplaceRuns(location)
  }

  /** One turn of the day loop: skip Sundays and days already stored;
      otherwise set the date, read the page, upsert its rows and dump them. */
  function JsDay(p: Portal, location: string, d: Date, r: JsRun): JsRun
    requires Valid(d)
  {
    if r.failure.Some? || JsUtcDay(d) == 0 then r
    else
      var name := CollectionName(location);
      var iso := Iso(d);
      if HasDate(Coll(r.db, name), iso) then r
      else
        var t := r.trace + [SetDate(d)];
        match p.render(location, iso)
        case None => JsRun(r.db, t, Some(NavigationTimeout(location, d)))
        case Some(page) =>
          match Extract(page, location, iso)
          case Failure(e) => JsRun(r.db, t + [Scrape(location, d)], Some(Extraction(location, d, e)))
          case Success(vs) =>
            JsRun(UpsertInto(r.db, name, vs),
                  t + [Scrape(location, d), WriteCsv(CsvPath(name, iso), CsvText(vs))], None)
  }

  /** The day loop over `ds`, in order. */
  function JsDays(p: Portal, location: string, ds: seq<Date>, r: JsRun): JsRun
    requires AllValid(ds)
    decreases |ds|
  {
    if ds == [] then r else JsDays(p, location, ds[1..], JsDay(p, location, ds[0], r))
  }

  /** The days `new Date(startDate)` to `new Date(endDate)` step through:
      none when either does not parse, since the loop test is then false. */
  function RangeOf(startDate: string, endDate: string): (ds: seq<Date>)
    ensures AllValid(ds)
  {
    match (ParseIso(startDate), ParseIso(endDate))
    case (Some(a), Some(b)) => DateRangeValid(a, b); DateRange(a, b)
    case _ => []
  }

  /** One turn of the location loop: change the clinic, then the day loop. */
  function JsLocation(p: Portal, location: string, startDate: string, endDate: string, r: JsRun): JsRun {
    if r.failure.Some? then r
    else
      var t := r.trace + [ChangeLocation(location)];
      if location !in p.clinics then JsRun(r.db, t, Some(LocationNotFound(location)))
      else JsDays(p, location, RangeOf(startDate, endDate), r.(trace := t))
  }

  function JsLocations(p: Portal, locations: seq<string>, startDate: string, endDate: string, r: JsRun): JsRun
    decreases |locations|
  {
    if locations == [] then r
    else JsLocations(p, locations[1..], startDate, endDate, JsLocation(p, locations[0], startDate, endDate, r))
  }

  /** `syncLocationsRange(locations, startDate, endDate)` run against the
      portal `p` and the store `db0`. */
  function JsSync(p: Portal, db0: Db, locations: seq<string>, startDate: string, endDate: string): JsRun {
    if !p.loginSucceeds then JsRun(db0, [Login], Some(AuthError))
    else JsLocations(p, locations, startDate, endDate, JsRun(db0, [Login], None))
  }

  // ---------------------------------------------------------------------------
  // The sync as the script runs it
  // ---------------------------------------------------------------------------

  method SyncLocationsRange(store: JsStore, p: Portal, locations: seq<string>,
                            startDate: string, endDate: string)
    returns (failure: Option<SyncError>, trace: seq<Op>)
    requires store.Valid()
    modifies store
    ensures store.Valid()
    ensures JsRun(store.collections, trace, failure)
         == JsSync(p, old(store.collections), locations, startDate, endDate)
  {
    trace := [Login];
    if !p.loginSucceeds {
      return Some(AuthError), trace;
    }
    ghost var r0 := JsRun(store.collections, trace, None);
    for i := 0 to |locations|
      invariant store.Valid()
      invariant JsLocations(p, locations, startDate, endDate, r0)
             == JsLocations(p, locations[i..], startDate, endDate, JsRun(store.collections, trace, None))
    {
      assert locations[i..][1..] == locations[i + 1..];
      var loc := locations[i];
      trace := trace + [ChangeLocation(loc)];
      if loc !in p.clinics {
        failure := Some(LocationNotFound(loc));
        JsLocationsFailed(p, locations[i + 1..], startDate, endDate, JsRun(store.collections, trace, failure));
        return;
      }
      var from, to := ParseIso(startDate), ParseIso(endDate);
      if from.Some? && to.Some? {
        failure, trace := SyncDays(store, p, loc, startDate, endDate, trace);
        if failure.Some? {
          JsLocationsFailed(p, locations[i + 1..], startDate, endDate, JsRun(store.collections, trace, failure));
          return;
        }
      }
    }
    failure := None;
  }

  /** The day loop: `for (d = from; d <= to; d = next day)`. */
  method SyncDays(store: JsStore, p: Portal, loc: string, startDate: string, endDate: string, trace0: seq<Op>)
    returns (failure: Option<SyncError>, trace: seq<Op>)
    requires store.Valid() && ParseIso(startDate).Some? && ParseIso(endDate).Some?
    modifies store
    ensures store.Valid()
    ensures JsRun(store.collections, trace, failure)
         == JsDays(p, loc, RangeOf(startDate, endDate), JsRun(old(store.collections), trace0, None))
  {
    var from, to := ParseIso(startDate).value, ParseIso(endDate).value;
    ghost var days := RangeOf(startDate, endDate);
    assert days == DateRange(from, to);
    trace, failure := trace0, None;
    var d := from;
    ghost var k := 0;
    while DayNumber(d) <= DayNumber(to)
      invariant store.Valid() && InCalendar(d) && failure.None?
      invariant 0 <= k <= |days| && DayNumber(d) == DayNumber(from) + k
      invariant k < |days| ==> d == days[k]
      invariant JsDays(p, loc, days, JsRun(old(store.collections), trace0, None))
             == JsDays(p, loc, days[k..], JsRun(store.collections, trace, None))
      decreases DayNumber(to) - DayNumber(d)
    {
      assert k < |days|;
      JsDaysStep(p, loc, days, k, JsRun(store.collections, trace, None));
      failure, trace := SyncDay(store, p, loc, d, trace);
      if failure.Some? {
        JsDaysFailed(p, loc, days[k + 1..], JsRun(store.collections, trace, failure));
        return;
      }
      if k + 1 < |days| {
        DaysAt(from, |days|, k);
      }
      d := Next(d);
      k := k + 1;
    }
    assert days[k..] == [];
  }

  /** One day: `getUTCDay`, `findOne`, `setDate`, the page read, the upserts
      and the CSV dump. */
  method SyncDay(store: JsStore, p: Portal, loc: string, d: Date, trace0: seq<Op>)
    returns (failure: Option<SyncError>, trace: seq<Op>)
    requires store.Valid() && Valid(d)
    modifies store
    ensures store.Valid()
    ensures JsRun(store.collections, trace, failure)
         == JsDay(p, loc, d, JsRun(old(store.collections), trace0, None))
  {
    trace, failure := trace0, None;
    var iso := Iso(d);
    if JsUtcDay(d) == 0 {
      return;
    }
    var name := CollectionName(loc);
    var present := store.FindOneByDate(name, iso);
    if present {
      return;
    }
    trace := trace + [SetDate(d)];
    var shown := p.render(loc, iso);
    if shown.None? {
      failure := Some(NavigationTimeout(loc, d));
      return;
    }
    var visits := ScrapeVisitsForDate(shown.value, loc, iso);
    trace := trace + [Scrape(loc, d)];
    if visits.Failure? {
      failure := Some(Extraction(loc, d, visits.error));
      return;
    }
    var _ := UpsertVisits(store, name, visits.value);
    trace := trace + [WriteCsv(CsvPath(name, iso), CsvText(visits.value))];
  }

  lemma JsDaysStep(p: Portal, loc: string, ds: seq<Date>, k: nat, r: JsRun)
    requires AllValid(ds) && k < |ds|
    ensures JsDays(p, loc, ds[k..], r) == JsDays(p, loc, ds[k + 1..], JsDay(p, loc, ds[k], r))
  {
    assert ds[k..][1..] == ds[k + 1..];
  }

  /** `syncRange(location, startDate, endDate)`. */
  method SyncRange(store: JsStore, p: Portal, location: string, startDate: string, endDate: string)
    returns (failure: Option<SyncError>, trace: seq<Op>)
    requires store.Valid()
    modifies store
    ensures store.Valid()
    ensures JsRun(store.collections, trace, failure)
         == JsSync(p, old(store.collections), [location], startDate, endDate)
  {
    failure, trace := SyncLocationsRange(store, p, [location], startDate, endDate);
  }

  /** `syncVisits(location, date)`: the one-day range. */
  method SyncVisits(store: JsStore, p: Portal, location: string, date: string)
    returns (failure: Option<SyncError>, trace: seq<Op>)
    requires store.Valid()
    modifies store
    ensures store.Valid()
    ensures JsRun(store.collections, trace, failure)
         == JsSync(p, old(store.collections), [location], date, date)
  {
    failure, trace := SyncLocationsRange(store, p, [location], date, date);
  }

  // ---------------------------------------------------------------------------
  // Properties of the sync
  // ---------------------------------------------------------------------------

  /** Once a run has stopped, the remaining turns change nothing. */
  lemma {:induction false} JsDaysFailed(p: Portal, location: string, ds: seq<Date>, r: JsRun)
    requires AllValid(ds) && r.failure.Some?
    ensures JsDays(p, location, ds, r) == r
    decreases |ds|
  {
    if ds != [] {
      JsDaysFailed(p, location, ds[1..], r);
    }
  }

  lemma {:induction false} JsLocationsFailed(p: Portal, locations: seq<string>, startDate: string, endDate: string, r: JsRun)
    requires r.failure.Some?
    ensures JsLocations(p, locations, startDate, endDate, r) == r
    decreases |locations|
  {
    if locations != [] {
      JsLocationsFailed(p, locations[1..], startDate, endDate, r);
    }
  }

  /** Nothing stored is lost and every row stays under its own key. */
  predicate Grows(db0: Db, db: Db) {
    AllKeyed(db) && forall name :: name in db0 ==> name in db && db0[name].Keys <= db[name].Keys
  }

  lemma GrowsTrans(db0: Db, db1: Db, db2: Db)
    requires Grows(db0, db1) && Grows(db1, db2)
    ensures Grows(db0, db2)
  {
  }

  /** A day found before is found later. */
  lemma GrowsKeepsDate(db0: Db, db: Db, name: string, date: string)
    requires AllKeyed(db0) && Grows(db0, db) && HasDate(Coll(db0, name), date)
    ensures HasDate(Coll(db, name), date)
  {
    var c0 := Coll(db0, name);
    var k :| k in c0 && c0[k].date == date;
    assert k in Coll(db, name);
    assert Coll(db, name)[k].date == k.date == date;
  }

  lemma JsDayGrows(p: Portal, location: string, d: Date, r: JsRun)
    requires Valid(d) && AllKeyed(r.db)
    ensures Grows(r.db, JsDay(p, location, d, r).db)
  {
    var r1 := JsDay(p, location, d, r);
    if r1.db != r.db {
      var name := CollectionName(location);
      var vs := Extract(p.render(location, Iso(d)).value, location, Iso(d)).value;
      UpsertAllKeyed(Coll(r.db, name), vs);
      UpsertAllKeys(Coll(r.db, name), vs);
    }
  }

  lemma {:induction false} JsDaysGrows(p: Portal, location: string, ds: seq<Date>, r: JsRun)
    requires AllValid(ds) && AllKeyed(r.db)
    ensures Grows(r.db, JsDays(p, location, ds, r).db)
    decreases |ds|
  {
    if ds != [] {
      var r1 := JsDay(p, location, ds[0], r);
      JsDayGrows(p, location, ds[0], r);
      JsDaysGrows(p, location, ds[1..], r1);
      GrowsTrans(r.db, r1.db, JsDays(p, location, ds[1..], r1).db);
    }
  }

  lemma {:induction false} JsLocationsGrows(p: Portal, locations: seq<string>, startDate: string, endDate: string, r: JsRun)
    requires AllKeyed(r.db)
    ensures Grows(r.db, JsLocations(p, locations, startDate, endDate, r).db)
    decreases |locations|
  {
    if locations != [] {
      var r1 := JsLocation(p, locations[0], startDate, endDate, r);
      if r.failure.None? && locations[0] in p.clinics {
        JsDaysGrows(p, locations[0], RangeOf(startDate, endDate), r.(trace := r.trace + [ChangeLocation(locations[0])]));
      }
      JsLocationsGrows(p, locations[1..], startDate, endDate, r1);
      GrowsTrans(r.db, r1.db, JsLocations(p, locations[1..], startDate, endDate, r1).db);
    }
  }

  /** A sync keeps every stored row, each under its own key. */
  lemma JsSyncGrows(p: Portal, db0: Db, locations: seq<string>, startDate: string, endDate: string)
    requires AllKeyed(db0)
    ensures Grows(db0, JsSync(p, db0, locations, startDate, endDate).db)
  {
    if p.loginSucceeds {
      JsLocationsGrows(p, locations, startDate, endDate, JsRun(db0, [Login], None));
    }
  }

  /** What every date and scrape operation of a run satisfies: a valid day
      of the range that is not a Sunday, and for a scrape a requested clinic
      whose collection did not hold that day when the run began. */
  predicate OpOk(db0: Db, locations: seq<string>, startDate: string, endDate: string, op: Op) {
    && (op.SetDate? ==> Valid(op.day) && !IsSunday(op.day) && InRange(startDate, endDate, op.day))
    && (op.Scrape? ==>
          && op.location in locations && Valid(op.day) && !IsSunday(op.day)
          && InRange(startDate, endDate, op.day)
          && !HasDate(Coll(db0, CollectionName(op.location)), Iso(op.day)))
  }

  predicate TraceOk(db0: Db, locations: seq<string>, startDate: string, endDate: string, t: seq<Op>) {
    forall i :: 0 <= i < |t| ==> OpOk(db0, locations, startDate, endDate, t[i])
  }

  predicate Inv(db0: Db, locations: seq<string>, startDate: string, endDate: string, r: JsRun) {
    AllKeyed(db0) && Grows(db0, r.db) && TraceOk(db0, locations, startDate, endDate, r.trace)
  }

  lemma TraceOkAppend(db0: Db, locations: seq<string>, startDate: string, endDate: string, t: seq<Op>, u: seq<Op>)
    requires TraceOk(db0, locations, startDate, endDate, t) && TraceOk(db0, locations, startDate, endDate, u)
    ensures TraceOk(db0, locations, startDate, endDate, t + u)
  {
    forall i | 0 <= i < |t + u|
      ensures OpOk(db0, locations, startDate, endDate, (t + u)[i])
    {
      if i >= |t| {
        assert (t + u)[i] == u[i - |t|];
      }
    }
  }

  /** A day either leaves the run alone or, for a weekday not yet stored,
      appends a `SetDate`, a `Scrape` of that day and a CSV write. */
  lemma JsDayTrace(p: Portal, location: string, d: Date, r: JsRun)
    requires Valid(d)
    ensures var t := JsDay(p, location, d, r).trace;
      || JsDay(p, location, d, r) == r
      || (&& !IsSunday(d) && !HasDate(Coll(r.db, CollectionName(location)), Iso(d))
          && |r.trace| <= |t| && t == r.trace + t[|r.trace|..]
          && forall i :: |r.trace| <= i < |t| ==>
               t[i] == SetDate(d) || t[i] == Scrape(location, d) || t[i].WriteCsv?)
  {
  }

  lemma JsDayInv(p: Portal, locations: seq<string>, startDate: string, endDate: string,
                 db0: Db, location: string, d: Date, r: JsRun)
    requires Valid(d) && location in locations && InRange(startDate, endDate, d)
    requires Inv(db0, locations, startDate, endDate, r)
    ensures Inv(db0, locations, startDate, endDate, JsDay(p, location, d, r))
  {
    var r1 := JsDay(p, location, d, r);
    JsDayGrows(p, location, d, r);
    JsDayTrace(p, location, d, r);
    GrowsTrans(db0, r.db, r1.db);
    if r1 != r {
      var name := CollectionName(location);
      var iso := Iso(d);
      if HasDate(Coll(db0, name), iso) {
        GrowsKeepsDate(db0, r.db, name, iso);
      }
      var extra := r1.trace[|r.trace|..];
      assert TraceOk(db0, locations, startDate, endDate, extra) by {
        forall i | 0 <= i < |extra|
          ensures OpOk(db0, locations, startDate, endDate, extra[i])
        {
          assert extra[i] == r1.trace[|r.trace| + i];
        }
      }
      TraceOkAppend(db0, locations, startDate, endDate, r.trace, extra);
    }
  }

  lemma {:induction false} JsDaysInv(p: Portal, locations: seq<string>, startDate: string, endDate: string,
                                     db0: Db, location: string, ds: seq<Date>, r: JsRun)
    requires AllValid(ds) && location in locations
    requires forall i :: 0 <= i < |ds| ==> InRange(startDate, endDate, ds[i])
    requires Inv(db0, locations, startDate, endDate, r)
    ensures Inv(db0, locations, startDate, endDate, JsDays(p, location, ds, r))
    decreases |ds|
  {
    if ds != [] {
      JsDayInv(p, locations, startDate, endDate, db0, location, ds[0], r);
      JsDaysInv(p, locations, startDate, endDate, db0, location, ds[1..], JsDay(p, location, ds[0], r));
    }
  }

  lemma RangeOfInRange(startDate: string, endDate: string)
    ensures forall i :: 0 <= i < |RangeOf(startDate, endDate)| ==> InRange(startDate, endDate, RangeOf(startDate, endDate)[i])
  {
    if ParseIso(startDate).Some? && ParseIso(endDate).Some? {
      var a, b := ParseIso(startDate).value, ParseIso(endDate).value;
      DateRangeSpec(a, b);
      var ds := DateRange(a, b);
      forall i | 0 <= i < |ds|
        ensures InRange(startDate, endDate, ds[i])
      {
        assert ds[i] in ds;
      }
    }
  }

  lemma {:induction false} JsLocationsInv(p: Portal, locations: seq<string>, startDate: string, endDate: string,
                                          db0: Db, ls: seq<string>, r: JsRun)
    requires forall l :: l in ls ==> l in locations
    requires Inv(db0, locations, startDate, endDate, r)
    ensures Inv(db0, locations, startDate, endDate, JsLocations(p, ls, startDate, endDate, r))
    decreases |ls|
  {
    if ls != [] {
      var loc := ls[0];
      var r1 := JsLocation(p, loc, startDate, endDate, r);
      if r.failure.None? {
        var t := r.trace + [ChangeLocation(loc)];
        TraceOkAppend(db0, locations, startDate, endDate, r.trace, [ChangeLocation(loc)]);
        if loc in p.clinics {
          RangeOfInRange(startDate, endDate);
          JsDaysInv(p, locations, startDate, endDate, db0, loc, RangeOf(startDate, endDate), r.(trace := t));
        }
      }
      assert forall l :: l in ls[1..] ==> l in ls;
      JsLocationsInv(p, locations, startDate, endDate, db0, ls[1..], r1);
    }
  }

  /** Every date set and every page read by a sync is a Monday to Saturday
      inside the requested range; every page read is for a requested clinic
      on a day its collection did not hold when the sync began. */
  lemma JsSyncOps(p: Portal, db0: Db, locations: seq<string>, startDate: string, endDate: string)
    requires AllKeyed(db0)
    ensures TraceOk(db0, locations, startDate, endDate, JsSync(p, db0, locations, startDate, endDate).trace)
  {
    if p.loginSucceeds {
      JsLocationsInv(p, locations, startDate, endDate, db0, locations, JsRun(db0, [Login], None));
    }
  }

  /** A day of a clinic is covered when its collection holds the day, or the
      portal shows the day with nothing on it. */
  predicate Covered(p: Portal, db: Db, location: string, d: Date)
    requires Valid(d)
  {
    HasDate(Coll(db, CollectionName(location)), Iso(d))
    || (p.render(location, Iso(d)).Some?
        && Extract(p.render(location, Iso(d)).value, location, Iso(d)) == Success([]))
  }

  lemma CoveredGrows(p: Portal, db: Db, db1: Db, location: string, d: Date)
    requires Valid(d) && AllKeyed(db) && Grows(db, db1) && Covered(p, db, location, d)
    ensures Covered(p, db1, location, d)
  {
    if HasDate(Coll(db, CollectionName(location)), Iso(d)) {
      GrowsKeepsDate(db, db1, CollectionName(location), Iso(d));
    }
  }

  lemma JsDayCovers(p: Portal, location: string, d: Date, r: JsRun)
    requires Valid(d) && !IsSunday(d) && r.failure.None?
    requires JsDay(p, location, d, r).failure.None?
    ensures Covered(p, JsDay(p, location, d, r).db, location, d)
  {
    var name := CollectionName(location);
    var iso := Iso(d);
    if !HasDate(Coll(r.db, name), iso) {
      var page := p.render(location, iso).value;
      var vs := Extract(page, location, iso).value;
      if vs != [] {
        ExtractRows(page, location, iso);
        UpsertAllAddsDate(Coll(r.db, name), vs, iso);
      }
    }
  }

  lemma {:induction false} JsDaysCover(p: Portal, location: string, ds: seq<Date>, r: JsRun)
    requires AllValid(ds) && AllKeyed(r.db)
    requires JsDays(p, location, ds, r).failure.None?
    ensures forall i :: 0 <= i < |ds| && !IsSunday(ds[i]) ==>
      Covered(p, JsDays(p, location, ds, r).db, location, ds[i])
    decreases |ds|
  {
    if ds != [] {
      var r1 := JsDay(p, location, ds[0], r);
      var last := JsDays(p, location, ds[1..], r1);
      if r1.failure.Some? {
        JsDaysFailed(p, location, ds[1..], r1);
      }
      if r.failure.Some? {
        JsDaysFailed(p, location, ds, r);
      }
      JsDayGrows(p, location, ds[0], r);
      JsDaysCover(p, location, ds[1..], r1);
      JsDaysGrows(p, location, ds[1..], r1);
      if !IsSunday(ds[0]) {
        JsDayCovers(p, location, ds[0], r);
        CoveredGrows(p, r1.db, last.db, location, ds[0]);
      }
      forall i | 1 <= i < |ds| && !IsSunday(ds[i])
        ensures Covered(p, last.db, location, ds[i])
      {
        assert ds[i] == ds[1..][i - 1];
      }
    }
  }

  lemma {:induction false} JsLocationsCover(p: Portal, ls: seq<string>, startDate: string, endDate: string, r: JsRun)
    requires AllKeyed(r.db)
    requires JsLocations(p, ls, startDate, endDate, r).failure.None?
    ensures forall l, i :: l in ls && 0 <= i < |RangeOf(startDate, endDate)| && !IsSunday(RangeOf(startDate, endDate)[i]) ==>
      Covered(p, JsLocations(p, ls, startDate, endDate, r).db, l, RangeOf(startDate, endDate)[i])
    decreases |ls|
  {
    if ls != [] {
      var ds := RangeOf(startDate, endDate);
      var r1 := JsLocation(p, ls[0], startDate, endDate, r);
      var last := JsLocations(p, ls[1..], startDate, endDate, r1);
      if r1.failure.Some? {
        JsLocationsFailed(p, ls[1..], startDate, endDate, r1);
      }
      assert r.failure.None? && ls[0] in p.clinics;
      var r0 := r.(trace := r.trace + [ChangeLocation(ls[0])]);
      JsDaysCover(p, ls[0], ds, r0);
      JsDaysGrows(p, ls[0], ds, r0);
      JsLocationsCover(p, ls[1..], startDate, endDate, r1);
      JsLocationsGrows(p, ls[1..], startDate, endDate, r1);
      forall l, i | l in ls && 0 <= i < |ds| && !IsSunday(ds[i])
        ensures Covered(p, last.db, l, ds[i])
      {
        if l == ls[0] {
          CoveredGrows(p, r1.db, last.db, l, ds[i]);
        } else {
          assert l in ls[1..];
        }
      }
    }
  }

  /** After a sync that ends without error, every Monday to Saturday of the
      range is covered for every requested clinic: stored, or shown empty by
      the portal. */
  lemma JsSyncCovers(p: Portal, db0: Db, locations: seq<string>, a: Date, b: Date)
    requires AllKeyed(db0) && Valid(a) && Valid(b)
    requires JsSync(p, db0, locations, Iso(a), Iso(b)).failure.None?
    ensures forall l, d :: l in locations && Valid(d) && DateLe(a, d) && DateLe(d, b) && !IsSunday(d) ==>
      Covered(p, JsSync(p, db0, locations, Iso(a), Iso(b)).db, l, d)
  {
    ParseIsoOfIso(a);
    ParseIsoOfIso(b);
    DateRangeSpec(a, b);
    var ds := RangeOf(Iso(a), Iso(b));
    assert ds == DateRange(a, b);
    JsLocationsCover(p, locations, Iso(a), Iso(b), JsRun(db0, [Login], None));
    forall l, d | l in locations && Valid(d) && DateLe(a, d) && DateLe(d, b) && !IsSunday(d)
      ensures Covered(p, JsSync(p, db0, locations, Iso(a), Iso(b)).db, l, d)
    {
      var i :| 0 <= i < |ds| && ds[i] == d;
    }
  }

  /** The operations of a sync that finds every day already stored: one
      clinic change per requested location. */
  function ChangeOps(locations: seq<string>): (t: seq<Op>)
  {
    if locations == [] then [] else [ChangeLocation(locations[0])] + ChangeOps(locations[1..])
  }

  predicate AllStored(db: Db, location: string, ds: seq<Date>)
    requires AllValid(ds)
  {
    forall i :: 0 <= i < |ds| && !IsSunday(ds[i]) ==> HasDate(Coll(db, CollectionName(location)), Iso(ds[i]))
  }

  lemma {:induction false} JsDaysStored(p: Portal, location: string, ds: seq<Date>, r: JsRun)
    requires AllValid(ds) && AllStored(r.db, location, ds)
    ensures JsDays(p, location, ds, r) == r
    decreases |ds|
  {
    if ds != [] {
      assert JsDay(p, location, ds[0], r) == r;
      JsDaysStored(p, location, ds[1..], r);
    }
  }

  lemma {:induction false} JsLocationsStored(p: Portal, ls: seq<string>, startDate: string, endDate: string, r: JsRun)
    requires r.failure.None?
    requires forall l :: l in ls ==> l in p.clinics && AllStored(r.db, l, RangeOf(startDate, endDate))
    ensures JsLocations(p, ls, startDate, endDate, r) == r.(trace := r.trace + ChangeOps(ls))
    decreases |ls|
  {
    if ls != [] {
      var r1 := r.(trace := r.trace + [ChangeLocation(ls[0])]);
      JsDaysStored(p, ls[0], RangeOf(startDate, endDate), r1);
      assert JsLocation(p, ls[0], startDate, endDate, r) == r1;
      JsLocationsCons(p, ls, startDate, endDate, r);
      JsLocationsStoredTail(p, ls, startDate, endDate, r, r1);
      ChangeOpsCons(ls);
      TraceAssoc(r.trace, ChangeLocation(ls[0]), ChangeOps(ls[1..]));
    }
  }

  lemma JsLocationsStoredTail(p: Portal, ls: seq<string>, startDate: string, endDate: string, r: JsRun, r1: JsRun)
    requires ls != [] && r1.failure.None? && r1.db == r.db
    requires forall l :: l in ls ==> l in p.clinics && AllStored(r.db, l, RangeOf(startDate, endDate))
    ensures JsLocations(p, ls[1..], startDate, endDate, r1) == r1.(trace := r1.trace + ChangeOps(ls[1..]))
    decreases |ls|, 0
  {
    assert forall l :: l in ls[1..] ==> l in ls;
    JsLocationsStored(p, ls[1..], startDate, endDate, r1);
  }

  lemma JsLocationsCons(p: Portal, ls: seq<string>, startDate: string, endDate: string, r: JsRun)
    requires ls != []
    ensures JsLocations(p, ls, startDate, endDate, r)
         == JsLocations(p, ls[1..], startDate, endDate, JsLocation(p, ls[0], startDate, endDate, r))
  {
  }

  lemma TraceAssoc(a: seq<Op>, x: Op, b: seq<Op>)
    ensures (a + [x]) + b == a + ([x] + b)
  {
  }

  lemma ChangeOpsCons(ls: seq<string>)
    requires ls != []
    ensures ChangeOps(ls) == [ChangeLocation(ls[0])] + ChangeOps(ls[1..])
  {
  }

  /** Re-running a sync over a range whose Mondays to Saturdays are all
      stored for every requested clinic leaves the store as it is, ends
      without error, and only logs in and changes clinic. */
  lemma JsSyncIdle(p: Portal, db0: Db, locations: seq<string>, startDate: string, endDate: string)
    requires p.loginSucceeds
    requires forall l :: l in locations ==> l in p.clinics && AllStored(db0, l, RangeOf(startDate, endDate))
    ensures JsSync(p, db0, locations, startDate, endDate)
         == JsRun(db0, [Login] + ChangeOps(locations), None)
  {
    JsLocationsStored(p, locations, startDate, endDate, JsRun(db0, [Login], None));
  }
}
