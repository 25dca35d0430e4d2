/** The read side of `src/index.js`: the three report endpoints over the
    collections the scrapers fill. Each collection is the sequence of its
    rows; the MongoDB queries become filters over it, and the aggregation
    pipeline `$match`, `$group` by doctor with a count, `$sort` by count
    descending becomes a tally of doctors sorted by count. */
module Api {
  import opened Wrappers
  import opened Text
  import opened Dates
  import opened Portal
  import JsScraper

  /** The database the server reads: one collection of rows per name. */
  type Db = map<string, seq<Visit>>

  /** `mongoose.connection.db.collection(name)`: an absent collection has no rows. */
  function Rows(db: Db, name: string): seq<Visit> {
    if name in db then db[name] else []
  }

  /** `loc.replace(/\s+/g, '_')`. */
  function CollectionName(location: string): string {
    ReplaceRuns(location)
  }

  const MonthNames: seq<string> :=
    ["Jan", "Feb", "Mar", "Apr", "May", "Jun", "Jul", "Aug", "Sep", "Oct", "Nov", "Dec"]

  // ---------------------------------------------------------------------------
  // Requests
  // ---------------------------------------------------------------------------

  /** The query string parameters the handlers read; None when absent. */
  datatype Query = Query(location: Option<string>, startDate: Option<string>, endDate: Option<string>)

  /** A reply: the JSON body, or a 400 with its error message. */
  datatype Response<T> = Ok(body: T) | BadRequest(error: string)

  /** `!x` is false: the parameter is there and is not the empty string. */
  predicate Given(x: Option<string>) {
    x.Some? && x.value != ""
  }

  /** `location = 'All'` and `(location === 'All') ? ALL_LOCATIONS : [location]`. */
  function Locations(location: Option<string>): (locs: seq<string>)
    ensures |locs| >= 1
    ensures forall l :: l in locs && l !in AllLocations ==> location == Some(l)
    ensures locs == AllLocations <==> location.None? || location.value == "All"
    ensures location.Some? && location.value != "All" ==> locs == [location.value]
  {
    if location.None? || location.value == "All" then AllLocations else [location.value]
  }

  // ---------------------------------------------------------------------------
  // Filters
  // ---------------------------------------------------------------------------

  /** The rows `keep` accepts, in their order: each accepted row occurs as
      often as in `rows`, every other row not at all. */
  function Filter(rows: seq<Visit>, keep: Visit -> bool): (rs: seq<Visit>)
    ensures forall v :: multiset(rs)[v] == if keep(v) then multiset(rows)[v] else 0
    ensures forall i :: 0 <= i < |rs| ==> keep(rs[i])
    ensures |rs| <= |rows|
    decreases |rows|
  {
    if rows == [] then []
    else
      var init, last := rows[..|rows| - 1], rows[|rows| - 1];
      assert rows == init + [last];
      Filter(init, keep) + (if keep(last) then [last] else [])
  }

  /** The filter keeps order: each further row is appended to the rows
      already kept exactly when `keep` accepts it. */
  lemma FilterSnoc(rows: seq<Visit>, x: Visit, keep: Visit -> bool)
    ensures Filter(rows + [x], keep) == Filter(rows, keep) + (if keep(x) then [x] else [])
  {
    assert (rows + [x])[..|rows|] == rows;
  }

  /** A single row is kept exactly when `keep` accepts it. */
  lemma FilterOne(x: Visit, keep: Visit -> bool)
    ensures Filter([x], keep) == if keep(x) then [x] else []
  {
    assert [x][..0] == [];
  }

  /** `buildDateFilter(start, end)`: `start <= date <= end` as strings. */
  predicate InWindow(start: string, end: string, date: string) {
    StrLe(start, date) && StrLe(date, end)
  }

  /** On `YYYY-MM-DD` strings the date filter is the inclusive range of days. */
  lemma DateFilterIso(a: Date, b: Date, d: Date)
    requires Valid(a) && Valid(b) && Valid(d)
    ensures InWindow(Iso(a), Iso(b), Iso(d)) <==> DateLe(a, d) && DateLe(d, b)
  {
    IsoLe(a, d);
    IsoLe(d, b);
  }

  /** The rows the KPI endpoint counts. */
  function InRangeRows(rows: seq<Visit>, start: string, end: string): seq<Visit> {
    Filter(rows, (v: Visit) => InWindow(start, end, v.date))
  }

  /** `STATUS_MAP[loc] || []`: the exit statuses the leaderboard counts. */
  function ExitStatuses(location: string): seq<string> {
    if location == "Orland Park" then ["MD Exit", "OD Exit"]
    else if location == "Oak Lawn" then ["MD Exit", "OD/Post-Op Exit"]
    else if location in ["Albany Park", "Buffalo Grove", "OakBrook", "Schaumburg"] then ["Exit"]
    else []
  }

  /** The rows the leaderboard counts: in range and with one of the statuses. */
  function ExitRows(rows: seq<Visit>, statuses: seq<string>, start: string, end: string): seq<Visit> {
    Filter(rows, (v: Visit) => InWindow(start, end, v.date) && v.status.Some? && v.status.value in statuses)
  }

  /** The labels the JavaScript scraper gives the boxes after the first. */
  function ExitLabels(location: string, date: string): seq<string>
    requires !StrLess(date, JsScraper.Cutoff)
  {
    var lay := JsScraper.JsLayout(location, date);
    JsScraper.JsLayoutShape(location, date);
    seq(if |lay.selectors| == 0 then 0 else |lay.selectors| - 1,
        i requires 0 <= i < |lay.selectors| - 1 => lay.statusMap[JsScraper.SelectorId(lay.selectors[i + 1])])
  }

  /** The statuses the leaderboard counts for a clinic are the labels the
      JavaScript scraper gives the boxes after the first (its exit boxes)
      from its cutover on, in the same order, so every row it writes as an
      exit is counted. */
  lemma ExitStatusesAgree(location: string, date: string)
    requires location in AllLocations && !StrLess(date, JsScraper.Cutoff)
    ensures ExitStatuses(location) == ExitLabels(location, date)
  {
    var lay := JsScraper.JsLayout(location, date);
    var sel := lay.selectors;
    if location == "Orland Park" {
      assert JsScraper.SelectorId(sel[1]) == "box97" && JsScraper.SelectorId(sel[2]) == "box367";
    } else if location == "Oak Lawn" {
      assert JsScraper.SelectorId(sel[1]) == "box66" && JsScraper.SelectorId(sel[2]) == "box366";
    } else {
      TwoBoxExit(location, date);
    }
  }

  lemma TwoBoxExit(location: string, date: string)
    requires location in ["Albany Park", "Buffalo Grove", "OakBrook", "Schaumburg"]
    requires !StrLess(date, JsScraper.Cutoff)
    ensures ExitLabels(location, date) == ["Exit"]
  {
    var sel := JsScraper.TwoBoxSelectors(location);
    assert |sel| == 2;
    assert JsScraper.SelectorId(sel[0]) != JsScraper.SelectorId(sel[1]);
    JsScraper.StatusReduceAt(sel, 2);
  }

  // ---------------------------------------------------------------------------
  // Group by doctor, count, sort by count descending
  // ---------------------------------------------------------------------------

  /** One `{ doctor, count }` of a leaderboard (`doctor` is null for rows
      without one, which `$group` puts together). */
  datatype Tally = Tally(doctor: Option<string>, count: nat)

  /** The number of rows of `doctor`. */
  function CountOf(rows: seq<Visit>, doctor: Option<string>): nat
    decreases |rows|
  {
    if rows == [] then 0
    else CountOf(rows[..|rows| - 1], doctor) + (if rows[|rows| - 1].doctor == doctor then 1 else 0)
  }

  /** The count `ts` holds for `doctor`, 0 when it has none. */
  function Lookup(ts: seq<Tally>, doctor: Option<string>): nat
    decreases |ts|
  {
    if ts == [] then 0 else if ts[0].doctor == doctor then ts[0].count else Lookup(ts[1..], doctor)
  }

  function Sum(ts: seq<Tally>): nat
    decreases |ts|
  {
    if ts == [] then 0 else ts[0].count + Sum(ts[1..])
  }

  /** No doctor has two tallies. */
  predicate Distinct(ts: seq<Tally>) {
    forall i, j :: 0 <= i < j < |ts| ==> ts[i].doctor != ts[j].doctor
  }

  /** Counts are in non-increasing order. */
  predicate SortedDesc(ts: seq<Tally>) {
    forall i, j :: 0 <= i < j < |ts| ==> ts[i].count >= ts[j].count
  }

  /** One more row of `doctor`. */
  function Bump(ts: seq<Tally>, doctor: Option<string>): seq<Tally>
    decreases |ts|
  {
    if ts == [] then [Tally(doctor, 1)]
    else if ts[0].doctor == doctor then [ts[0].(count := ts[0].count + 1)] + ts[1..]
    else [ts[0]] + Bump(ts[1..], doctor)
  }

  /** `$group: { _id: '$doctor', count: { $sum: 1 } }`. */
  function Group(rows: seq<Visit>): seq<Tally>
    decreases |rows|
  {
    if rows == [] then [] else Bump(Group(rows[..|rows| - 1]), rows[|rows| - 1].doctor)
  }

  /** Puts `t` before the first tally with a smaller count. */
  function Insert(t: Tally, ts: seq<Tally>): seq<Tally>
    decreases |ts|
  {
    if ts == [] || t.count >= ts[0].count then [t] + ts else [ts[0]] + Insert(t, ts[1..])
  }

  /** `$sort: { count: -1 }`, as an insertion sort. */
  function SortDesc(ts: seq<Tally>): seq<Tally>
    decreases |ts|
  {
    if ts == [] then [] else Insert(ts[0], SortDesc(ts[1..]))
  }

  /** The leaderboard of a set of rows. */
  function Ranking(rows: seq<Visit>): seq<Tally> {
    SortDesc(Group(rows))
  }

  lemma DistinctCons(t: Tally, ts: seq<Tally>)
    requires Distinct(ts) && forall u :: u in ts ==> u.doctor != t.doctor
    ensures Distinct([t] + ts)
  {
    var s := [t] + ts;
    forall i, j | 0 <= i < j < |s|
      ensures s[i].doctor != s[j].doctor
    {
      assert s[j] == ts[j - 1];
      if i > 0 {
        assert s[i] == ts[i - 1];
      }
    }
  }

  lemma {:induction false} LookupIn(ts: seq<Tally>, t: Tally)
    requires Distinct(ts) && t in ts
    ensures Lookup(ts, t.doctor) == t.count
    decreases |ts|
  {
    if ts[0] != t {
      assert t in ts[1..];
      var k :| 0 <= k < |ts[1..]| && ts[1..][k] == t;
      assert ts[k + 1] == t;
      LookupIn(ts[1..], t);
    }
  }

  lemma {:induction false} LookupAbsent(ts: seq<Tally>, doctor: Option<string>)
    requires forall u :: u in ts ==> u.doctor != doctor
    ensures Lookup(ts, doctor) == 0
    decreases |ts|
  {
    if ts != [] {
      assert ts[0] in ts;
      assert forall u :: u in ts[1..] ==> u in ts;
      LookupAbsent(ts[1..], doctor);
    }
  }

  /** What one more row of `doctor` does to a tally: that doctor's count
      goes up by one (from 0 when it had none), the rest stay as they were,
      the tallies stay distinct and their sum goes up by one. */
  lemma BumpSpec(ts: seq<Tally>, doctor: Option<string>)
    requires Distinct(ts)
    ensures var b := Bump(ts, doctor);
      && Distinct(b)
      && Sum(b) == Sum(ts) + 1
      && (forall t :: t in b ==>
            (t.doctor == doctor && t.count == Lookup(ts, doctor) + 1) || (t.doctor != doctor && t in ts))
      && (forall t :: t in ts && t.doctor != doctor ==> t in b)
      && (exists t :: t in b && t.doctor == doctor)
  {
    BumpMembers(ts, doctor);
    BumpDistinct(ts, doctor);
    BumpKeeps(ts, doctor);
    BumpSum(ts, doctor);
  }

  lemma {:induction false} BumpMembers(ts: seq<Tally>, doctor: Option<string>)
    requires Distinct(ts)
    ensures forall t :: t in Bump(ts, doctor) ==>
      (t.doctor == doctor && t.count == Lookup(ts, doctor) + 1) || (t.doctor != doctor && t in ts)
    ensures exists t :: t in Bump(ts, doctor) && t.doctor == doctor
    decreases |ts|
  {
    var b := Bump(ts, doctor);
    if ts == [] {
      assert b[0] in b;
    } else if ts[0].doctor == doctor {
      assert b[0] in b;
      forall t | t in b && t != b[0]
        ensures t.doctor != doctor && t in ts
      {
        var k :| 0 <= k < |b| && b[k] == t;
        assert k > 0 && t == ts[k];
      }
    } else {
      var rest := ts[1..];
      assert Distinct(rest);
      BumpMembers(rest, doctor);
      var b1 := Bump(rest, doctor);
      assert b == [ts[0]] + b1;
      forall t | t in b1
        ensures (t.doctor == doctor && t.count == Lookup(ts, doctor) + 1) || (t.doctor != doctor && t in ts)
      {
        if t.doctor != doctor {
          assert t in rest;
          var k :| 0 <= k < |rest| && rest[k] == t;
          assert ts[k + 1] == t;
        }
      }
      var w :| w in b1 && w.doctor == doctor;
      assert w in b;
    }
  }

  lemma {:induction false} BumpDistinct(ts: seq<Tally>, doctor: Option<string>)
    requires Distinct(ts)
    ensures Distinct(Bump(ts, doctor))
    decreases |ts|
  {
    var b := Bump(ts, doctor);
    if ts != [] {
      var rest := ts[1..];
      assert Distinct(rest);
      forall u | u in rest
        ensures u.doctor != ts[0].doctor
      {
        var k :| 0 <= k < |rest| && rest[k] == u;
        assert ts[k + 1] == u;
      }
      if ts[0].doctor == doctor {
        DistinctCons(b[0], rest);
      } else {
        BumpDistinct(rest, doctor);
        BumpMembers(rest, doctor);
        DistinctCons(ts[0], Bump(rest, doctor));
      }
    }
  }

  lemma {:induction false} BumpKeeps(ts: seq<Tally>, doctor: Option<string>)
    ensures forall t :: t in ts && t.doctor != doctor ==> t in Bump(ts, doctor)
    decreases |ts|
  {
    if ts != [] {
      var rest := ts[1..];
      var b := Bump(ts, doctor);
      if ts[0].doctor != doctor {
        BumpKeeps(rest, doctor);
        assert b == [ts[0]] + Bump(rest, doctor);
      }
      forall t | t in ts && t.doctor != doctor && t != ts[0]
        ensures t in b
      {
        var k :| 0 <= k < |ts| && ts[k] == t;
        assert rest[k - 1] == t;
      }
    }
  }

  lemma {:induction false} BumpSum(ts: seq<Tally>, doctor: Option<string>)
    ensures Sum(Bump(ts, doctor)) == Sum(ts) + 1
    decreases |ts|
  {
    if ts != [] && ts[0].doctor != doctor {
      BumpSum(ts[1..], doctor);
    }
  }

  lemma {:induction false} CountOfPositive(rows: seq<Visit>, doctor: Option<string>)
    requires CountOf(rows, doctor) > 0
    ensures exists k :: 0 <= k < |rows| && rows[k].doctor == doctor
    decreases |rows|
  {
    var init := rows[..|rows| - 1];
    if rows[|rows| - 1].doctor != doctor {
      CountOfPositive(init, doctor);
      var k :| 0 <= k < |init| && init[k].doctor == doctor;
      assert rows[k] == init[k];
    }
  }

  /** What `$group` makes of a set of rows: one tally per doctor that has
      rows, holding that doctor's number of rows; the counts add up to the
      number of rows. */
  predicate Histogram(ts: seq<Tally>, rows: seq<Visit>) {
    && Distinct(ts)
    && (forall t :: t in ts ==> t.count == CountOf(rows, t.doctor) && t.count > 0)
    && (forall k :: 0 <= k < |rows| ==> exists t :: t in ts && t.doctor == rows[k].doctor)
    && Sum(ts) == |rows|
  }

  lemma GroupSpec(rows: seq<Visit>)
    ensures Histogram(Group(rows), rows)
  {
    GroupCounts(rows);
    GroupCovers(rows);
  }

  lemma {:induction false} GroupCounts(rows: seq<Visit>)
    ensures Distinct(Group(rows)) && Sum(Group(rows)) == |rows|
    ensures forall t :: t in Group(rows) ==> t.count == CountOf(rows, t.doctor) && t.count > 0
    decreases |rows|
  {
    if rows != [] {
      var init, last := rows[..|rows| - 1], rows[|rows| - 1];
      var g := Group(init);
      GroupCounts(init);
      BumpSpec(g, last.doctor);
      assert Group(rows) == Bump(g, last.doctor);
      if forall u :: u in g ==> u.doctor != last.doctor {
        LookupAbsent(g, last.doctor);
        if CountOf(init, last.doctor) > 0 {
          CountOfPositive(init, last.doctor);
          GroupCovers(init);
        }
      } else {
        var u :| u in g && u.doctor == last.doctor;
        LookupIn(g, u);
      }
    }
  }

  lemma {:induction false} GroupCovers(rows: seq<Visit>)
    ensures forall k :: 0 <= k < |rows| ==> exists t :: t in Group(rows) && t.doctor == rows[k].doctor
    decreases |rows|
  {
    if rows != [] {
      var init, last := rows[..|rows| - 1], rows[|rows| - 1];
      var g := Group(init);
      GroupCovers(init);
      GroupCounts(init);
      BumpMembers(g, last.doctor);
      BumpKeeps(g, last.doctor);
      var b := Group(rows);
      assert b == Bump(g, last.doctor);
      forall k | 0 <= k < |rows|
        ensures exists t :: t in b && t.doctor == rows[k].doctor
      {
        if k < |init| {
          assert rows[k] == init[k];
          var t :| t in g && t.doctor == init[k].doctor;
          if t.doctor != last.doctor {
            assert t in b;
          }
        }
      }
    }
  }

  /** Inserting a tally into a sorted list keeps it sorted, adds exactly
      that tally and adds its count to the sum. */
  lemma InsertSpec(t: Tally, ts: seq<Tally>)
    requires SortedDesc(ts)
    ensures SortedDesc(Insert(t, ts))
    ensures multiset(Insert(t, ts)) == multiset(ts) + multiset{t}
    ensures Sum(Insert(t, ts)) == t.count + Sum(ts)
  {
    InsertSorted(t, ts);
    InsertMultiset(t, ts);
    InsertSum(t, ts);
  }

  lemma {:induction false} InsertMultiset(t: Tally, ts: seq<Tally>)
    ensures multiset(Insert(t, ts)) == multiset(ts) + multiset{t}
    decreases |ts|
  {
    if ts != [] && t.count < ts[0].count {
      InsertMultiset(t, ts[1..]);
      assert ts == [ts[0]] + ts[1..];
    }
  }

  lemma {:induction false} InsertSum(t: Tally, ts: seq<Tally>)
    ensures Sum(Insert(t, ts)) == t.count + Sum(ts)
    decreases |ts|
  {
    if ts != [] && t.count < ts[0].count {
      InsertSum(t, ts[1..]);
    }
  }

  /** Inserting below a bound stays below it. */
  lemma InsertBounded(t: Tally, ts: seq<Tally>, c: nat)
    requires t.count <= c && forall i :: 0 <= i < |ts| ==> ts[i].count <= c
    ensures forall i :: 0 <= i < |Insert(t, ts)| ==> Insert(t, ts)[i].count <= c
  {
    var r := Insert(t, ts);
    InsertMultiset(t, ts);
    forall i | 0 <= i < |r|
      ensures r[i].count <= c
    {
      assert r[i] in multiset(r);
      if r[i] != t {
        assert r[i] in multiset(ts);
        var k :| 0 <= k < |ts| && ts[k] == r[i];
      }
    }
  }

  lemma {:induction false} InsertSorted(t: Tally, ts: seq<Tally>)
    requires SortedDesc(ts)
    ensures SortedDesc(Insert(t, ts))
    decreases |ts|
  {
    var r := Insert(t, ts);
    if ts == [] || t.count >= ts[0].count {
      forall i, j | 0 <= i < j < |r|
        ensures r[i].count >= r[j].count
      {
        assert r[j] == ts[j - 1];
        if i > 0 {
          assert r[i] == ts[i - 1];
        }
      }
    } else {
      var rest := ts[1..];
      InsertSorted(t, rest);
      InsertBounded(t, rest, ts[0].count);
      var r1 := Insert(t, rest);
      assert r == [ts[0]] + r1;
      forall i, j | 0 <= i < j < |r|
        ensures r[i].count >= r[j].count
      {
        assert r[j] == r1[j - 1];
        if i > 0 {
          assert r[i] == r1[i - 1];
        }
      }
    }
  }

  lemma SortSpec(ts: seq<Tally>)
    ensures SortedDesc(SortDesc(ts))
    ensures multiset(SortDesc(ts)) == multiset(ts)
    ensures Sum(SortDesc(ts)) == Sum(ts)
  {
    SortSorted(ts);
    SortMultiset(ts);
    SortSum(ts);
  }

  lemma {:induction false} SortSorted(ts: seq<Tally>)
    ensures SortedDesc(SortDesc(ts))
    decreases |ts|
  {
    if ts != [] {
      SortSorted(ts[1..]);
      InsertSorted(ts[0], SortDesc(ts[1..]));
    }
  }

  lemma {:induction false} SortMultiset(ts: seq<Tally>)
    ensures multiset(SortDesc(ts)) == multiset(ts)
    decreases |ts|
  {
    if ts != [] {
      SortMultiset(ts[1..]);
      InsertMultiset(ts[0], SortDesc(ts[1..]));
      assert ts == [ts[0]] + ts[1..];
    }
  }

  lemma {:induction false} SortSum(ts: seq<Tally>)
    ensures Sum(SortDesc(ts)) == Sum(ts)
    decreases |ts|
  {
    if ts != [] {
      SortSum(ts[1..]);
      InsertSum(ts[0], SortDesc(ts[1..]));
    }
  }

  /** Reordering the tallies keeps them distinct. */
  lemma PermutedDistinct(a: seq<Tally>, b: seq<Tally>)
    requires Distinct(a) && multiset(a) == multiset(b)
    ensures Distinct(b)
  {
    forall i, j | 0 <= i < j < |b| && b[i].doctor == b[j].doctor
      ensures false
    {
      assert b[i] in multiset(a) && b[j] in multiset(a);
      var p :| 0 <= p < |a| && a[p] == b[i];
      var q :| 0 <= q < |a| && a[q] == b[j];
      if p == q {
        assert b[i] == b[j];
        assert multiset(b)[b[i]] >= 2 by {
          var m := multiset(b[..j]);
          assert b == b[..j] + b[j..];
          assert b[i] in b[..j] by { assert b[..j][i] == b[i]; }
          assert b[j] in b[j..] by { assert b[j..][0] == b[j]; }
          assert multiset(b) == multiset(b[..j]) + multiset(b[j..]);
        }
        assert multiset(a)[a[p]] >= 2;
        DistinctOnce(a, p);
      }
    }
  }

  /** In a distinct sequence each tally occurs once. */
  lemma DistinctOnce(a: seq<Tally>, p: nat)
    requires Distinct(a) && p < |a|
    ensures multiset(a)[a[p]] == 1
  {
    var x := a[p];
    assert a == a[..p] + [x] + a[p + 1..];
    forall k | 0 <= k < |a[..p]|
      ensures a[..p][k] != x
    {
      assert a[..p][k] == a[k];
    }
    var tail := a[p + 1..];
    forall k | 0 <= k < |tail|
      ensures tail[k] != x
    {
      assert tail[k] == a[p + 1 + k];
    }
    assert x !in a[..p];
    assert x !in a[p + 1..];
    assert multiset(a) == multiset(a[..p]) + multiset{x} + multiset(a[p + 1..]);
  }

  /** The leaderboard of a set of rows lists each doctor that has rows once,
      with that doctor's number of rows, by count from the highest down, and
      its counts add up to the number of rows. */
  lemma RankingSpec(rows: seq<Visit>)
    ensures SortedDesc(Ranking(rows))
    ensures Histogram(Ranking(rows), rows)
  {
    var g := Group(rows);
    var r := Ranking(rows);
    GroupSpec(rows);
    SortSpec(g);
    PermutedDistinct(g, r);
    forall t | t in r
      ensures t in g
    {
      assert t in multiset(r);
    }
    forall k | 0 <= k < |rows|
      ensures exists t :: t in r && t.doctor == rows[k].doctor
    {
      var t :| t in g && t.doctor == rows[k].doctor;
      assert t in multiset(g);
      assert t in r;
    }
  }

  // ---------------------------------------------------------------------------
  // The endpoints
  // ---------------------------------------------------------------------------

  /** One element of the `/api/leaderboard` reply. */
  datatype Board = Board(location: string, leaderboard: seq<Tally>)

  /** The leaderboard of one clinic: its exit rows in range, ranked. */
  function LocationBoard(db: Db, location: string, start: string, end: string): seq<Tally> {
    Ranking(ExitRows(Rows(db, CollectionName(location)), ExitStatuses(location), start, end))
  }

  /** `GET /api/leaderboard`. */
  method Leaderboard(db: Db, q: Query) returns (r: Response<seq<Board>>)
    ensures r.BadRequest? <==> !Given(q.startDate) || !Given(q.endDate)
    ensures r.BadRequest? ==> r.error == "startDate & endDate required"
    ensures r.Ok? ==>
      var locs := Locations(q.location);
      |r.body| == |locs|
      && forall i :: 0 <= i < |locs| ==>
           r.body[i] == Board(locs[i], LocationBoard(db, locs[i], q.startDate.value, q.endDate.value))
  {
    if !Given(q.startDate) || !Given(q.endDate) {
      return BadRequest("startDate & endDate required");
    }
    var locs := Locations(q.location);
    var start, end := q.startDate.value, q.endDate.value;
    var results: seq<Board> := [];
    for i := 0 to |locs|
      invariant |results| == i
      invariant forall k :: 0 <= k < i ==> results[k] == Board(locs[k], LocationBoard(db, locs[k], start, end))
    {
      var loc := locs[i];
      var rows := Rows(db, CollectionName(loc));
      var statuses := ExitStatuses(loc);
      results := results + [Board(loc, Ranking(ExitRows(rows, statuses, start, end)))];
    }
    r := Ok(results);
  }

  /** A leaderboard only counts exit rows of the clinic in range, lists each
      of their doctors once with that doctor's number of such rows, by count
      from the highest down; a location with no exit statuses has an empty
      one. */
  lemma LeaderboardSpec(db: Db, location: string, start: string, end: string)
    ensures var rows := ExitRows(Rows(db, CollectionName(location)), ExitStatuses(location), start, end);
      var board := LocationBoard(db, location, start, end);
      && SortedDesc(board) && Histogram(board, rows)
      && (forall v :: v in rows ==> InWindow(start, end, v.date) && v.status.Some?
                                    && v.status.value in ExitStatuses(location))
      && (location !in AllLocations ==> board == [])
  {
    var rows := ExitRows(Rows(db, CollectionName(location)), ExitStatuses(location), start, end);
    RankingSpec(rows);
    ExitRowsKept(Rows(db, CollectionName(location)), ExitStatuses(location), start, end);
    if location !in AllLocations {
      NoStatusesNoRows(Rows(db, CollectionName(location)), ExitStatuses(location), start, end);
    }
  }

  /** Every row the leaderboard counts is in range and has one of the statuses. */
  lemma ExitRowsKept(rows: seq<Visit>, statuses: seq<string>, start: string, end: string)
    ensures forall v :: v in ExitRows(rows, statuses, start, end) ==>
      InWindow(start, end, v.date) && v.status.Some? && v.status.value in statuses
  {
    var kept := ExitRows(rows, statuses, start, end);
    forall v | v in kept
      ensures InWindow(start, end, v.date) && v.status.Some? && v.status.value in statuses
    {
      var k :| 0 <= k < |kept| && kept[k] == v;
    }
  }

  /** With no exit statuses there is nothing to count. */
  lemma NoStatusesNoRows(rows: seq<Visit>, statuses: seq<string>, start: string, end: string)
    requires statuses == []
    ensures ExitRows(rows, statuses, start, end) == []
  {
    var kept := ExitRows(rows, statuses, start, end);
    if kept != [] {
      assert kept[0] in kept;
      ExitRowsKept(rows, statuses, start, end);
    }
  }

  /** One element of `byLocation`. */
  datatype Seen = Seen(location: string, patientsSeen: nat)

  /** One element of `byDoctor`. */
  datatype PerDoctor = PerDoctor(location: string, perDoctor: seq<Tally>)

  datatype Kpis = Kpis(byLocation: seq<Seen>, byDoctor: seq<PerDoctor>)

  /** `GET /api/kpis`. */
  method KpisFor(db: Db, q: Query) returns (r: Response<Kpis>)
    ensures r.BadRequest? <==> !Given(q.startDate) || !Given(q.endDate)
    ensures r.BadRequest? ==> r.error == "startDate & endDate required"
    ensures r.Ok? ==>
      var locs := Locations(q.location);
      var start, end := q.startDate.value, q.endDate.value;
      |r.body.byLocation| == |locs| && |r.body.byDoctor| == |locs|
      && forall i :: 0 <= i < |locs| ==>
           var rows := InRangeRows(Rows(db, CollectionName(locs[i])), start, end);
           r.body.byLocation[i] == Seen(locs[i], |rows|)
           && r.body.byDoctor[i] == PerDoctor(locs[i], Ranking(rows))
  {
    if !Given(q.startDate) || !Given(q.endDate) {
      return BadRequest("startDate & endDate required");
    }
    var k := KpisOver(db, Locations(q.location), q.startDate.value, q.endDate.value);
    r := Ok(k);
  }

  /** The KPI body for the clinics `locs` and the range from `start` to `end`. */
  method KpisOver(db: Db, locs: seq<string>, start: string, end: string) returns (k: Kpis)
    ensures |k.byLocation| == |locs| && |k.byDoctor| == |locs|
    ensures forall i :: 0 <= i < |locs| ==>
      var rows := InRangeRows(Rows(db, CollectionName(locs[i])), start, end);
      k.byLocation[i] == Seen(locs[i], |rows|) && k.byDoctor[i] == PerDoctor(locs[i], Ranking(rows))
  {
    var byLocation: seq<Seen> := [];
    var byDoctor: seq<PerDoctor> := [];
    for i := 0 to |locs|
      invariant |byLocation| == i && |byDoctor| == i
      invariant forall j :: 0 <= j < i ==>
        byLocation[j] == Seen(locs[j], |InRangeRows(Rows(db, CollectionName(locs[j])), start, end)|)
      invariant forall j :: 0 <= j < i ==>
        byDoctor[j] == PerDoctor(locs[j], Ranking(InRangeRows(Rows(db, CollectionName(locs[j])), start, end)))
    {
      var loc := locs[i];
      var rows := InRangeRows(Rows(db, CollectionName(loc)), start, end);
      byLocation := byLocation + [Seen(loc, |rows|)];
      byDoctor := byDoctor + [PerDoctor(loc, Ranking(rows))];
    }
    k := Kpis(byLocation, byDoctor);
  }

  /** A clinic's per-doctor counts add up to its `patientsSeen`, and are
      exactly the in-range rows of each doctor. */
  lemma KpisAgree(db: Db, q: Query, r: Kpis, i: nat)
    requires Given(q.startDate) && Given(q.endDate) && i < |Locations(q.location)|
    requires |r.byLocation| == |r.byDoctor| == |Locations(q.location)|
    requires var rows := InRangeRows(Rows(db, CollectionName(Locations(q.location)[i])), q.startDate.value, q.endDate.value);
      r.byLocation[i].patientsSeen == |rows| && r.byDoctor[i].perDoctor == Ranking(rows)
    ensures Sum(r.byDoctor[i].perDoctor) == r.byLocation[i].patientsSeen
    ensures SortedDesc(r.byDoctor[i].perDoctor)
    ensures forall t :: t in r.byDoctor[i].perDoctor ==>
      t.count == CountOf(InRangeRows(Rows(db, CollectionName(Locations(q.location)[i])),
                                     q.startDate.value, q.endDate.value), t.doctor)
  {
    RankingSpec(InRangeRows(Rows(db, CollectionName(Locations(q.location)[i])), q.startDate.value, q.endDate.value));
  }

  // ---------------------------------------------------------------------------
  // The comparison endpoint
  // ---------------------------------------------------------------------------

  datatype Comparison = Comparison(location: string, months: seq<string>, thisYear: seq<nat>, lastYear: seq<nat>)

  /** The first day of month `m` (0 for January) of `year`, as
      `new Date(year, m, 1)` gives it, with month 12 rolling over. */
  function MonthStart(year: int, m: int): Date
    requires 0 <= m <= 12
  {
    if m == 12 then Date(year + 1, 1, 1) else Date(year, m + 1, 1)
  }

  /** `start <= date < end` as strings for month `m` of `year`. */
  predicate InMonth(year: int, m: int, date: string)
    requires 1 <= year <= 9998 && 0 <= m < 12
  {
    StrLe(Iso(MonthStart(year, m)), date) && StrLess(date, Iso(MonthStart(year, m + 1)))
  }

  /** On `YYYY-MM-DD` strings the month window holds exactly the days of
      that month. */
  lemma MonthWindow(year: int, m: int, d: Date)
    requires 1 <= year <= 9998 && 0 <= m < 12 && Valid(d)
    ensures InMonth(year, m, Iso(d)) <==> d.year == year && d.month == m + 1
  {
    IsoLe(MonthStart(year, m), d);
    IsoOrder(d, MonthStart(year, m + 1));
  }

  /** The rows of one collection in the window. */
  function MonthRows(rows: seq<Visit>, year: int, m: int): seq<Visit>
    requires 1 <= year <= 9998 && 0 <= m < 12
  {
    Filter(rows, (v: Visit) => InMonth(year, m, v.date))
  }

  /** The number of rows of one clinic in the window. */
  function MonthCount(db: Db, year: int, m: int): string -> nat
    requires 1 <= year <= 9998 && 0 <= m < 12
  {
    loc => |MonthRows(Rows(db, CollectionName(loc)), year, m)|
  }

  /** The counts of the clinics added one after another. */
  function SumOver(locs: seq<string>, count: string -> nat): nat
    decreases |locs|
  {
    if locs == [] then 0 else SumOver(locs[..|locs| - 1], count) + count(locs[|locs| - 1])
  }

  /** `monthTotal`: the window's rows over all the clinics queried. */
  function MonthTotal(db: Db, locs: seq<string>, year: int, m: int): nat
    requires 1 <= year <= 9998 && 0 <= m < 12
  {
    SumOver(locs, MonthCount(db, year, m))
  }

  /** The values of `f` at `0` up to `n - 1`, in order. */
  function Prefix(n: nat, f: nat -> nat): seq<nat> {
    if n == 0 then [] else Prefix(n - 1, f) + [f(n - 1)]
  }

  lemma {:induction false} PrefixAt(n: nat, f: nat -> nat)
    ensures |Prefix(n, f)| == n
    ensures forall m :: 0 <= m < n ==> Prefix(n, f)[m] == f(m)
  {
    if n > 0 {
      PrefixAt(n - 1, f);
    }
  }

  function MonthTotalOf(db: Db, locs: seq<string>, year: int): nat -> nat
    requires 1 <= year <= 9998
  {
    m => if m < 12 then MonthTotal(db, locs, year, m) else 0
  }

  /** The totals of the first `n` months of `year`. */
  function MonthTotals(db: Db, locs: seq<string>, year: int, n: nat): seq<nat>
    requires 1 <= year <= 9998 && n <= 12
  {
    Prefix(n, MonthTotalOf(db, locs, year))
  }

  /** Entry `m` of the totals is month `m`'s total. */
  lemma MonthTotalsAt(db: Db, locs: seq<string>, year: int, n: nat)
    requires 1 <= year <= 9998 && n <= 12
    ensures |MonthTotals(db, locs, year, n)| == n
    ensures forall m :: 0 <= m < n ==> MonthTotals(db, locs, year, n)[m] == MonthTotal(db, locs, year, m)
  {
    PrefixAt(n, MonthTotalOf(db, locs, year));
  }

  lemma MonthTotalsSnoc(db: Db, locs: seq<string>, year: int, m: nat)
    requires 1 <= year <= 9998 && m < 12
    ensures MonthTotals(db, locs, year, m + 1) == MonthTotals(db, locs, year, m) + [MonthTotal(db, locs, year, m)]
  {
    assert MonthTotalOf(db, locs, year)(m) == MonthTotal(db, locs, year, m);
  }

  /** `countFor(year)`: the month totals from January to `currentMonth`. */
  method CountFor(db: Db, locs: seq<string>, year: int, currentMonth: int) returns (results: seq<nat>)
    requires 1 <= year <= 9998 && 0 <= currentMonth < 12
    ensures results == MonthTotals(db, locs, year, currentMonth + 1)
  {
    results := [];
    for m := 0 to currentMonth + 1
      invariant results == MonthTotals(db, locs, year, m)
    {
      var monthTotal := MonthSum(db, locs, year, m);
      MonthTotalsSnoc(db, locs, year, m);
      results := results + [monthTotal];
    }
  }

  /** One month's total, the clinics added one after another. */
  method MonthSum(db: Db, locs: seq<string>, year: int, m: int) returns (monthTotal: nat)
    requires 1 <= year <= 9998 && 0 <= m < 12
    ensures monthTotal == MonthTotal(db, locs, year, m)
  {
    var count := MonthCount(db, year, m);
    monthTotal := 0;
    for j := 0 to |locs|
      invariant monthTotal == SumOver(locs[..j], count)
    {
      assert locs[..j + 1][..j] == locs[..j];
      monthTotal := monthTotal + count(locs[j]);
    }
    assert locs[..|locs|] == locs;
  }

  /** `GET /api/comparison` with `new Date()` given as `thisYear` and
      `currentMonth` (0 for January). */
  method CompareYears(db: Db, location: Option<string>, thisYear: int, currentMonth: int)
    returns (r: Response<Comparison>)
    requires 2 <= thisYear <= 9998 && 0 <= currentMonth < 12
    ensures r.BadRequest? <==> !Given(location)
    ensures r.BadRequest? ==> r.error == "location is required"
    ensures r.Ok? ==> r.body.location == location.value
    ensures r.Ok? ==> r.body.months == MonthNames[..currentMonth + 1]
    ensures r.Ok? ==> r.body.thisYear == MonthTotals(db, Locations(location), thisYear, currentMonth + 1)
    ensures r.Ok? ==> r.body.lastYear == MonthTotals(db, Locations(location), thisYear - 1, currentMonth + 1)
  {
    if !Given(location) {
      return BadRequest("location is required");
    }
    var c := CompareLocations(db, Locations(location), location.value, thisYear, currentMonth);
    r := Ok(c);
  }

  /** The comparison body for the clinics `locs`, reported under `name`. */
  method CompareLocations(db: Db, locs: seq<string>, name: string, thisYear: int, currentMonth: int)
    returns (c: Comparison)
    requires 2 <= thisYear <= 9998 && 0 <= currentMonth < 12
    ensures c.location == name
    ensures c.months == MonthNames[..currentMonth + 1]
    ensures c.thisYear == MonthTotals(db, locs, thisYear, currentMonth + 1)
    ensures c.lastYear == MonthTotals(db, locs, thisYear - 1, currentMonth + 1)
  {
    var lastYear := thisYear - 1;
    var thisYearCounts := CountFor(db, locs, thisYear, currentMonth);
    var lastYearCounts := CountFor(db, locs, lastYear, currentMonth);
    c := Comparison(name, MonthNames[..currentMonth + 1], thisYearCounts, lastYearCounts);
  }


  /** For rows whose dates are `YYYY-MM-DD` days, the month window keeps
      exactly the rows of that calendar month. */
  lemma MonthRowsCalendar(rows: seq<Visit>, year: int, m: int)
    requires 1 <= year <= 9998 && 0 <= m < 12
    requires forall v :: v in rows ==> ParseIso(v.date).Some?
    ensures forall v :: v in MonthRows(rows, year, m) <==>
      v in rows && ParseIso(v.date).value.year == year && ParseIso(v.date).value.month == m + 1
  {
    forall v | v in rows
      ensures InMonth(year, m, v.date) <==>
        ParseIso(v.date).value.year == year && ParseIso(v.date).value.month == m + 1
    {
      IsoOfParseIso(v.date);
      MonthWindow(year, m, ParseIso(v.date).value);
    }
    forall v
      ensures v in MonthRows(rows, year, m) <==> v in rows && InMonth(year, m, v.date)
    {
      assert v in MonthRows(rows, year, m) <==> v in multiset(MonthRows(rows, year, m));
      assert v in rows <==> v in multiset(rows);
    }
  }
}
