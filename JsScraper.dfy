/** The page-reading half of `src/scraper.js`: which slot containers
    `scrapeVisitsForDate` reads for a clinic and day, how one `<li>` becomes a
    visit row, the whole page read (as a specification function and as the
    nested loop the page script runs), and the CSV dump of one day. */
module JsScraper {
  import opened Wrappers
  import opened Text
  import opened Dates
  import opened Portal

  /** Days before this one use the legacy single AM/PM container. */
  const Cutoff := "2025-05-22"
  const CutoverDay := Date(2025, 5, 22)

  const NoShowLabels: set<string> := {"No-Show/Resced", "No-Show/Resched"}
  const ExitLabels: set<string> := {"MD Exit", "OD Exit", "OD/Post-Op Exit", "Exit"}

  /** The containers a page read waits for, and the status each one's id
      gives its entries. */
  datatype Layout =
    | AmPmLayout
    | BoxLayout(selectors: seq<string>, statusMap: map<string, string>)

  /** `id.slice(1)`: the element id a `#id` selector names. */
  function SelectorId(sel: string): string {
    if |sel| == 0 then "" else sel[1..]
  }

  /** The two-box clinics' selectors; `mapping[location] || []`. */
  function TwoBoxSelectors(location: string): seq<string> {
    if location == "Albany Park" then ["#box358", "#box352"]
    else if location == "Buffalo Grove" then ["#box387", "#box388"]
    else if location == "OakBrook" then ["#box411", "#box412"]
    else if location == "Schaumburg" then ["#box439", "#box440"]
    else []
  }

  /** The `reduce` that builds the two-box clinics' status map, over the
      first `n` selectors: the entry equal to the first selector is the
      no-show box and every other box an exit box. */
  function StatusReduce(boxes: seq<string>, n: nat): (m: map<string, string>)
    requires n <= |boxes|
  {
    if n == 0 then map[]
    else
      StatusReduce(boxes, n - 1)[SelectorId(boxes[n - 1]) :=
        if boxes[n - 1] == boxes[0] then "No-Show/Resched" else "Exit"]
  }

  /** The reduce's map is keyed by exactly the ids of the selectors. */
  lemma {:induction false} StatusReduceKeys(boxes: seq<string>, n: nat)
    requires n <= |boxes|
    ensures StatusReduce(boxes, n).Keys == set i | 0 <= i < n :: SelectorId(boxes[i])
  {
    if n > 0 {
      StatusReduceKeys(boxes, n - 1);
      assert (set i | 0 <= i < n :: SelectorId(boxes[i]))
          == (set i | 0 <= i < n - 1 :: SelectorId(boxes[i])) + {SelectorId(boxes[n - 1])};
    }
  }

  /** When the selectors name distinct ids, the reduce gives the first box
      the no-show label and every other box the generic exit label. */
  lemma {:induction false} StatusReduceAt(boxes: seq<string>, n: nat)
    requires n <= |boxes|
    requires forall i, j :: 0 <= i < j < |boxes| ==> SelectorId(boxes[i]) != SelectorId(boxes[j])
    ensures forall i :: 0 <= i < n ==>
      SelectorId(boxes[i]) in StatusReduce(boxes, n) &&
      StatusReduce(boxes, n)[SelectorId(boxes[i])] == (if i == 0 then "No-Show/Resched" else "Exit")
  {
    if n > 0 {
      StatusReduceAt(boxes, n - 1);
      var m := StatusReduce(boxes, n - 1);
      var k := SelectorId(boxes[n - 1]);
      var v := if boxes[n - 1] == boxes[0] then "No-Show/Resched" else "Exit";
      assert StatusReduce(boxes, n) == m[k := v];
      if n > 1 {
        assert SelectorId(boxes[0]) != SelectorId(boxes[n - 1]);
        assert v == "Exit";
      }
      forall i | 0 <= i < n - 1
        ensures SelectorId(boxes[i]) != k
      {
      }
    }
  }

  /** The layout `scrapeVisitsForDate` picks: the legacy AM/PM container
      before the cutoff (compared as strings, like `date < cutoff`), then
      the fixed three-box lists of Orland Park and Oak Lawn, then the
      two-box table, and for any other clinic no container at all. */
  function JsLayout(location: string, date: string): (r: Layout)
    ensures r.AmPmLayout? <==> StrLess(date, Cutoff)
  {
    if StrLess(date, Cutoff) then AmPmLayout
    else if location == "Orland Park" then
      BoxLayout(["#box96", "#box97", "#box367"],
                map["box96" := "No-Show/Resced", "box97" := "MD Exit", "box367" := "OD Exit"])
    else if location == "Oak Lawn" then
      BoxLayout(["#box63", "#box66", "#box366"],
                map["box63" := "No-Show/Resched", "box66" := "MD Exit", "box366" := "OD/Post-Op Exit"])
    else
      var boxes := TwoBoxSelectors(location);
      BoxLayout(boxes, StatusReduce(boxes, |boxes|))
  }

  /** The shape of a box layout: the status map is keyed by exactly the
      ids of the boxes read; the first box is a no-show box and every later
      box an exit box; the six clinics read three or two boxes and any other
      location none. */
  predicate LayoutShaped(location: string, r: Layout) {
    && r.BoxLayout?
    && r.statusMap.Keys == (set i | 0 <= i < |r.selectors| :: SelectorId(r.selectors[i]))
    && (forall i :: 0 <= i < |r.selectors| ==>
          r.statusMap[SelectorId(r.selectors[i])] in (if i == 0 then NoShowLabels else ExitLabels))
    && (location in {"Orland Park", "Oak Lawn"} <==> |r.selectors| == 3)
    && (location in {"Albany Park", "Buffalo Grove", "OakBrook", "Schaumburg"} <==> |r.selectors| == 2)
    && (location !in AllLocations <==> r.selectors == [])
  }

  /** After the cutoff every location gets a well-shaped box layout. */
  lemma JsLayoutShape(location: string, date: string)
    requires !StrLess(date, Cutoff)
    ensures LayoutShaped(location, JsLayout(location, date))
  {
    if location == "Orland Park" || location == "Oak Lawn" {
      ThreeBoxShape(location, date);
    } else {
      TwoBoxShape(location, date);
    }
  }

  /** The two clinics that read three boxes: Orland Park and Oak Lawn. */
  lemma ThreeBoxShape(location: string, date: string)
    requires !StrLess(date, Cutoff) && (location == "Orland Park" || location == "Oak Lawn")
    ensures LayoutShaped(location, JsLayout(location, date))
  {
    var r := JsLayout(location, date);
    var s := r.selectors;
    if location == "Orland Park" {
      assert SelectorId(s[0]) == "box96" && SelectorId(s[1]) == "box97" && SelectorId(s[2]) == "box367";
    } else {
      assert SelectorId(s[0]) == "box63" && SelectorId(s[1]) == "box66" && SelectorId(s[2]) == "box366";
    }
    ThreeBoxes(location, s, r.statusMap);
  }

  /** A layout of three boxes with distinct ids, keyed by exactly those ids,
      whose first box is a no-show box and the other two exit boxes. */
  lemma ThreeBoxes(location: string, s: seq<string>, m: map<string, string>)
    requires location == "Orland Park" || location == "Oak Lawn"
    requires |s| == 3
    requires m.Keys == {SelectorId(s[0]), SelectorId(s[1]), SelectorId(s[2])}
    requires m[SelectorId(s[0])] in NoShowLabels
    requires m[SelectorId(s[1])] in ExitLabels && m[SelectorId(s[2])] in ExitLabels
    ensures LayoutShaped(location, BoxLayout(s, m))
  {
    assert (set i | 0 <= i < |s| :: SelectorId(s[i])) == {SelectorId(s[0]), SelectorId(s[1]), SelectorId(s[2])};
  }

  lemma TwoBoxShape(location: string, date: string)
    requires !StrLess(date, Cutoff) && location != "Orland Park" && location != "Oak Lawn"
    ensures LayoutShaped(location, JsLayout(location, date))
  {
    var s := TwoBoxSelectors(location);
    if |s| == 2 {
      assert SelectorId(s[0]) != SelectorId(s[1]);
      StatusReduceKeys(s, 2);
      StatusReduceAt(s, 2);
    }
  }

  /** The cutoff string is the ISO form of 2025-05-22. */
  lemma CutoffIsIso()
    ensures Valid(CutoverDay) && Iso(CutoverDay) == Cutoff
  {
    YearDigits();
    MonthDigits();
    assert Digits(22, 2) == "22" by {
      assert Digits(2, 1) == "2";
    }
  }

  lemma YearDigits()
    ensures Digits(2025, 4) == "2025"
  {
    assert Digits(2, 1) == "2";
    assert Digits(20, 2) == "20";
    assert Digits(202, 3) == "202";
  }

  lemma MonthDigits()
    ensures Digits(5, 2) == "05"
  {
    assert Digits(0, 1) == "0";
  }


  /** For a day written in ISO form the string comparison with the cutoff is
      the chronological one: the legacy layout is used for exactly the days
      before 2025-05-22. */
  lemma JsLayoutByDay(location: string, d: Date)
    requires Valid(d)
    ensures JsLayout(location, Iso(d)).AmPmLayout? <==> DateLess(d, CutoverDay)
  {
    CutoffIsIso();
    IsoOrder(d, CutoverDay);
  }

  // ---------------------------------------------------------------------------
  // One entry
  // ---------------------------------------------------------------------------

  /** The row the page script builds from one `<li>` of the droptarget
      `boxId`: the trimmed text split on blank runs gives the time (first
      piece) and the patient (the other pieces joined by single spaces); the
      title's `Doctor:` and `Type:` lines give doctor and type; the status is
      the box's label, or null when the box has none. */
  function ParseEntry(e: Entry, boxId: string, statusMap: map<string, string>,
                      location: string, date: string): (v: Visit)
    ensures v.location == location && v.date == date && v.reason.None?
    ensures NoSpace(v.time)
    ensures v.status.Some? <==> boxId in statusMap && statusMap[boxId] != ""
    ensures v.status.Some? ==> v.status.value == statusMap[boxId]
  {
    var parts := SplitRuns(Trim(e.text));
    Visit(location, date,
          if boxId in statusMap && statusMap[boxId] != "" then Some(statusMap[boxId]) else None,
          parts[0], Join(parts[1..], " "),
          LabelValue(e.title, "Doctor:"), LabelValue(e.title, "Type:"), None)
  }

  /** An entry whose text is a time token and the patient's name tokens,
      separated by any blank runs (tabs, newlines, several spaces) and with
      any blanks around them, reads back as that time and that name joined
      by single spaces. */
  lemma ParseEntryReads(e: Entry, boxId: string, statusMap: map<string, string>,
                        location: string, date: string,
                        lead: string, time: string, names: seq<string>, gaps: seq<string>,
                        tail: string)
    requires AllSpace(lead) && AllSpace(tail) && IsToken(time) && AllTokens(names)
    requires |gaps| == |names| && Gaps(gaps)
    requires e.text == lead + Spaced(time, names, gaps) + tail
    ensures ParseEntry(e, boxId, statusMap, location, date).time == time
    ensures ParseEntry(e, boxId, statusMap, location, date).patient == Join(names, " ")
  {
    var body := Spaced(time, names, gaps);
    SpacedTrimmed(time, names, gaps);
    TrimAround(lead, body, tail);
    SplitRunsOfTrimmed(body);
    WordsOfSpaced(time, names, gaps);
    assert ([time] + names)[1..] == names;
  }

  /** A blank entry gives an empty time and an empty patient. */
  lemma ParseEntryBlank(e: Entry, boxId: string, statusMap: map<string, string>,
                        location: string, date: string)
    requires AllSpace(e.text)
    ensures ParseEntry(e, boxId, statusMap, location, date).time == ""
    ensures ParseEntry(e, boxId, statusMap, location, date).patient == ""
  {
    assert Trim(e.text) == [];
    assert SplitRuns([]) == [""];
  }

  // ---------------------------------------------------------------------------
  // The page read
  // ---------------------------------------------------------------------------

  /** The row parser for the entries of one box. */
  function Parser(boxId: string, statusMap: map<string, string>, location: string, date: string): Entry -> Visit {
    e => ParseEntry(e, boxId, statusMap, location, date)
  }

  /** The rows of one box's entries, in document order. */
  function BoxRows(entries: seq<Entry>, boxId: string, statusMap: map<string, string>,
                   location: string, date: string): (vs: seq<Visit>)
    ensures |vs| == |entries|
  {
    if entries == [] then []
    else
      BoxRows(entries[..|entries| - 1], boxId, statusMap, location, date)
        + [ParseEntry(entries[|entries| - 1], boxId, statusMap, location, date)]
  }

  /** The rows of a box are its entries, each parsed. */
  lemma BoxRowsAt(entries: seq<Entry>, boxId: string, statusMap: map<string, string>,
                  location: string, date: string, i: nat)
    requires i < |entries|
    ensures BoxRows(entries, boxId, statusMap, location, date)[i]
         == ParseEntry(entries[i], boxId, statusMap, location, date)
  {
    BoxRowsMap(entries, boxId, statusMap, location, date);
    MapRowsAt(entries, Parser(boxId, statusMap, location, date), i);
  }

  lemma {:induction false} BoxRowsMap(entries: seq<Entry>, boxId: string, statusMap: map<string, string>,
                                      location: string, date: string)
    ensures BoxRows(entries, boxId, statusMap, location, date) == MapRows(entries, Parser(boxId, statusMap, location, date))
    decreases |entries|
  {
    if entries != [] {
      BoxRowsMap(entries[..|entries| - 1], boxId, statusMap, location, date);
    }
  }

  predicate AllPresent(page: Page, selectors: seq<string>) {
    forall i :: 0 <= i < |selectors| ==> SelectorId(selectors[i]) in page.boxes
  }

  /** How the rows of one box are read: from its entries and its id. */
  type BoxReader = (seq<Entry>, string) -> seq<Visit>

  /** The reader the scraper uses for a clinic, day and status table. */
  function Reader(statusMap: map<string, string>, location: string, date: string): BoxReader {
    (entries: seq<Entry>, boxId: string) => BoxRows(entries, boxId, statusMap, location, date)
  }

  /** The rows of the first `n` boxes, box after box. */
  function PageRows(page: Page, selectors: seq<string>, read: BoxReader, n: nat): seq<Visit>
    requires n <= |selectors| && AllPresent(page, selectors)
  {
    if n == 0 then []
    else
      var id := SelectorId(selectors[n - 1]);
      PageRows(page, selectors, read, n - 1) + read(page.boxes[id], id)
  }

  /** Waiting for every container, then reading them all. */
  function ReadBoxes(page: Page, selectors: seq<string>, statusMap: map<string, string>,
                     location: string, date: string): Result<seq<Visit>, ExtractError>
  {
    if AllPresent(page, selectors)
    then Success(PageRows(page, selectors, Reader(statusMap, location, date), |selectors|))
    else Failure(MissingContainer)
  }

  /** `scrapeVisitsForDate`: what one page read yields. */
  function Extract(page: Page, location: string, date: string): Result<seq<Visit>, ExtractError>
  {
    match JsLayout(location, date)
    case AmPmLayout =>
      if page.amPmBox.None? then Failure(NoAmPmContainer)
      else ReadBoxes(page, ["#" + page.amPmBox.value], map[], location, date)
    case BoxLayout(selectors, statusMap) =>
      ReadBoxes(page, selectors, statusMap, location, date)
  }

  /** A row as the page read can produce it for a clinic and day. */
  predicate RowOf(v: Visit, statusMap: map<string, string>, location: string, date: string) {
    v.location == location && v.date == date && v.reason.None?
    && (v.status.Some? ==> v.status.value in statusMap.Values)
  }

  /** A property every row that `read` gives has holds of every row of the page. */
  lemma {:induction false} PageRowsAll(page: Page, selectors: seq<string>, read: BoxReader, p: Visit -> bool, n: nat)
    requires n <= |selectors| && AllPresent(page, selectors)
    requires forall es, id, v :: v in read(es, id) ==> p(v)
    ensures forall v :: v in PageRows(page, selectors, read, n) ==> p(v)
  {
    if n > 0 {
      PageRowsAll(page, selectors, read, p, n - 1);
    }
  }

  function IsRowOf(statusMap: map<string, string>, location: string, date: string): Visit -> bool {
    v => RowOf(v, statusMap, location, date)
  }

  lemma PageRowsOf(page: Page, selectors: seq<string>, statusMap: map<string, string>,
                   location: string, date: string, n: nat)
    requires n <= |selectors| && AllPresent(page, selectors)
    ensures forall v :: v in PageRows(page, selectors, Reader(statusMap, location, date), n) ==>
      RowOf(v, statusMap, location, date)
  {
    var read := Reader(statusMap, location, date);
    forall es, id, v | v in read(es, id)
      ensures IsRowOf(statusMap, location, date)(v)
    {
      BoxRowsOf(es, id, statusMap, location, date);
    }
    PageRowsAll(page, selectors, read, IsRowOf(statusMap, location, date), n);
  }

  lemma BoxRowsOf(entries: seq<Entry>, id: string, statusMap: map<string, string>, location: string, date: string)
    ensures forall v :: v in BoxRows(entries, id, statusMap, location, date) ==> RowOf(v, statusMap, location, date)
  {
    var b := BoxRows(entries, id, statusMap, location, date);
    forall v | v in b
      ensures RowOf(v, statusMap, location, date)
    {
      var i :| 0 <= i < |b| && b[i] == v;
      BoxRowsAt(entries, id, statusMap, location, date, i);
      ParsedRowOf(entries[i], id, statusMap, location, date);
    }
  }

  lemma ParsedRowOf(e: Entry, id: string, statusMap: map<string, string>, location: string, date: string)
    ensures RowOf(ParseEntry(e, id, statusMap, location, date), statusMap, location, date)
  {
    if id in statusMap {
      assert statusMap[id] in statusMap.Values;
    }
  }

  /** Every row of a successful read carries the clinic and day it was read
      for, no reason, and either no status or one of the layout's labels;
      before the cutoff no row has a status. */
  lemma ExtractRows(page: Page, location: string, date: string)
    requires Extract(page, location, date).Success?
    ensures forall v :: v in Extract(page, location, date).value ==>
      && v.location == location && v.date == date && v.reason.None?
      && (v.status.Some? ==> v.status.value in NoShowLabels + ExitLabels)
      && (StrLess(date, Cutoff) ==> v.status.None?)
  {
    var r := JsLayout(location, date);
    if r.AmPmLayout? {
      PageRowsOf(page, ["#" + page.amPmBox.value], map[], location, date, 1);
    } else {
      PageRowsOf(page, r.selectors, r.statusMap, location, date, |r.selectors|);
      JsLayoutShape(location, date);
      forall k | k in r.statusMap
        ensures r.statusMap[k] in NoShowLabels + ExitLabels
      {
        var i :| 0 <= i < |r.selectors| && SelectorId(r.selectors[i]) == k;
      }
    }
  }

  /** After the cutoff a location outside the six clinics reads nothing and
      succeeds with no rows. */
  lemma ExtractUnknownLocation(page: Page, location: string, date: string)
    requires !StrLess(date, Cutoff) && location !in AllLocations
    ensures Extract(page, location, date) == Success([])
  {
    JsLayoutShape(location, date);
  }

  /** The page read as the page script runs it: wait for each container,
      then push one row per `<li>`, box after box. */
  method ScrapeVisitsForDate(page: Page, location: string, date: string)
    returns (r: Result<seq<Visit>, ExtractError>)
    ensures r == Extract(page, location, date)
  {
    var layout := JsLayout(location, date);
    if layout.AmPmLayout? {
      if page.amPmBox.None? {
        return Failure(NoAmPmContainer);
      }
      r := ReadAll(page, ["#" + page.amPmBox.value], map[], location, date);
    } else {
      r := ReadAll(page, layout.selectors, layout.statusMap, location, date);
    }
  }

  /** Waits for every container (failing on the first one missing), then
      reads them in order. */
  method ReadAll(page: Page, selectors: seq<string>, statusMap: map<string, string>,
                 location: string, date: string)
    returns (r: Result<seq<Visit>, ExtractError>)
    ensures r == ReadBoxes(page, selectors, statusMap, location, date)
  {
    var i := 0;
    while i < |selectors|
      invariant 0 <= i <= |selectors|
      invariant forall j :: 0 <= j < i ==> SelectorId(selectors[j]) in page.boxes
    {
      if SelectorId(selectors[i]) !in page.boxes {
        return Failure(MissingContainer);
      }
      i := i + 1;
    }
    var out: seq<Visit> := [];
    for b := 0 to |selectors|
      invariant out == PageRows(page, selectors, Reader(statusMap, location, date), b)
    {
      var id := SelectorId(selectors[b]);
      var rows := ReadBox(page.boxes[id], id, statusMap, location, date);
      out := out + rows;
    }
    return Success(out);
  }

  /** `querySelectorAll(selector + ' li').forEach(li => out.push(...))` for one box. */
  method ReadBox(lis: seq<Entry>, id: string, statusMap: map<string, string>,
                 location: string, date: string)
    returns (rows: seq<Visit>)
    ensures rows == BoxRows(lis, id, statusMap, location, date)
  {
    rows := [];
    for k := 0 to |lis|
      invariant rows == BoxRows(lis[..k], id, statusMap, location, date)
    {
      BoxRowsSnoc(lis, k, id, statusMap, location, date);
      rows := rows + [ParseEntry(lis[k], id, statusMap, location, date)];
    }
    assert lis[..|lis|] == lis;
  }

  lemma BoxRowsSnoc(lis: seq<Entry>, k: nat, id: string, statusMap: map<string, string>,
                    location: string, date: string)
    requires k < |lis|
    ensures BoxRows(lis[..k + 1], id, statusMap, location, date)
         == BoxRows(lis[..k], id, statusMap, location, date) + [ParseEntry(lis[k], id, statusMap, location, date)]
  {
    assert lis[..k + 1][..k] == lis[..k];
  }

  // ---------------------------------------------------------------------------
  // The CSV dump
  // ---------------------------------------------------------------------------

  const CsvHeader := "status,time,patient,doctor,type"

  /** One CSV line; a missing status, doctor or type is an empty field. */
  function CsvRow(v: Visit): string {
    Join([OrEmpty(v.status), v.time, v.patient, OrEmpty(v.doctor), OrEmpty(v.visitType)], ",")
  }

  function CsvRows(vs: seq<Visit>): (rows: seq<string>)
    ensures |rows| == |vs| && forall i :: 0 <= i < |vs| ==> rows[i] == CsvRow(vs[i])
  {
    if vs == [] then [] else [CsvRow(vs[0])] + CsvRows(vs[1..])
  }

  /** The header line, then the rows joined by newlines. */
  function CsvText(vs: seq<Visit>): string {
    CsvHeader + "\n" + Join(CsvRows(vs), "\n")
  }

  /** `path.join('logs_dump', safeLoc + '_' + iso + '.csv')`. */
  function CsvPath(collection: string, iso: string): string {
    "logs_dump/" + collection + "_" + iso + ".csv"
  }

  predicate FieldsFree(v: Visit, c: char) {
    c !in OrEmpty(v.status) && c !in v.time && c !in v.patient
    && c !in OrEmpty(v.doctor) && c !in OrEmpty(v.visitType)
  }

  lemma {:induction false} JoinCons(a: string, rest: seq<string>, sep: string)
    requires |rest| >= 1
    ensures Join([a] + rest, sep) == a + sep + Join(rest, sep)
  {
    assert ([a] + rest)[1..] == rest;
  }

  lemma {:induction false} JoinKeepsOut(parts: seq<string>, sep: string, c: char)
    requires c !in sep && forall i :: 0 <= i < |parts| ==> c !in parts[i]
    ensures c !in Join(parts, sep)
  {
    if |parts| > 1 {
      JoinKeepsOut(parts[1..], sep, c);
    }
  }

  /** Splitting the dump on newlines gives the header and then one line per
      row, or a single empty line when there are no rows, provided no field
      holds a newline. */
  lemma CsvLines(vs: seq<Visit>)
    requires forall i :: 0 <= i < |vs| ==> FieldsFree(vs[i], '\n')
    ensures SplitOn(CsvText(vs), '\n') == [CsvHeader] + (if vs == [] then [""] else CsvRows(vs))
  {
    HeaderFree();
    DumpLines(CsvHeader, vs);
  }

  /** The same for any newline-free first line. */
  lemma DumpLines(h: string, vs: seq<Visit>)
    requires '\n' !in h
    requires forall i :: 0 <= i < |vs| ==> FieldsFree(vs[i], '\n')
    ensures SplitOn(h + "\n" + Join(CsvRows(vs), "\n"), '\n') == [h] + (if vs == [] then [""] else CsvRows(vs))
  {
    var rows := CsvRows(vs);
    RowsFree(vs);
    if vs == [] {
      assert Join(rows, "\n") == Join([""], "\n");
      LinesSplit(h, [""]);
    } else {
      LinesSplit(h, rows);
    }
  }

  /** Joining a first line and further newline-free lines with newlines and
      splitting the result on newlines gives the lines back. */
  lemma LinesSplit(h: string, tail: seq<string>)
    requires '\n' !in h && |tail| >= 1
    requires forall i :: 0 <= i < |tail| ==> '\n' !in tail[i]
    ensures SplitOn(h + "\n" + Join(tail, "\n"), '\n') == [h] + tail
  {
    var lines := [h] + tail;
    JoinCons(h, tail, "\n");
    assert forall i :: 1 <= i < |lines| ==> lines[i] == tail[i - 1];
    SplitOnJoin(lines, '\n');
  }

  lemma HeaderFree()
    ensures '\n' !in CsvHeader
  {
  }

  lemma RowsFree(vs: seq<Visit>)
    requires forall i :: 0 <= i < |vs| ==> FieldsFree(vs[i], '\n')
    ensures forall i :: 0 <= i < |vs| ==> '\n' !in CsvRows(vs)[i]
  {
    forall i | 0 <= i < |vs|
      ensures '\n' !in CsvRows(vs)[i]
    {
      RowFree(vs[i], '\n');
    }
  }

  lemma RowFree(v: Visit, c: char)
    requires FieldsFree(v, c) && c != ','
    ensures c !in CsvRow(v)
  {
    JoinKeepsOut([OrEmpty(v.status), v.time, v.patient, OrEmpty(v.doctor), OrEmpty(v.visitType)], ",", c);
  }

  /** Splitting a row on commas gives its five fields back, provided no
      field holds a comma. */
  lemma CsvFields(v: Visit)
    requires FieldsFree(v, ',')
    ensures SplitOn(CsvRow(v), ',') ==
      [OrEmpty(v.status), v.time, v.patient, OrEmpty(v.doctor), OrEmpty(v.visitType)]
  {
    SplitOnJoin([OrEmpty(v.status), v.time, v.patient, OrEmpty(v.doctor), OrEmpty(v.visitType)], ',');
  }
}
