/** The page-reading half of `src/scraperselenium.py`: the containers
    `scrape_visits_for_date` reads for a clinic and day, how one `<li>`
    becomes a visit row (or stops the read), the whole page read as a
    specification function and as the nested loop the scraper runs, and how
    all of it compares with the JavaScript scraper. */
module PyScraper {
  import opened Wrappers
  import opened Text
  import opened Dates
  import opened Portal
  import JsScraper

  /** `CUT_OFF_DATE`: days before this one use the legacy AM/PM container. */
  const Cutoff := "2025-05-31"
  const CutoverDay := Date(2025, 5, 31)

  /** The containers a page read visits, by element id, and the status each
      one's id gives its entries. */
  datatype Layout =
    | AmPmBlock
    | Boxes(ids: seq<string>, statusMap: map<string, string>)

  /** `loc_map.get(location, ([], {}))`. */
  function LocMap(location: string): (seq<string>, map<string, string>) {
    if location == "Orland Park" then
      (["box96", "box97", "box367"], map["box96" := "No-Show/Resced", "box97" := "MD Exit", "box367" := "OD Exit"])
    else if location == "Oak Lawn" then
      (["box63", "box66", "box366"], map["box63" := "No-Show/Resched", "box66" := "MD Exit", "box366" := "OD/Post-Op Exit"])
    else if location == "Albany Park" then
      (["box358", "box352"], map["box358" := "No-Show/Resced", "box352" := "Exit"])
    else if location == "Buffalo Grove" then
      (["box387", "box388"], map["box387" := "No-Show/Resced", "box388" := "Exit"])
    else if location == "OakBrook" then
      (["box411", "box412"], map["box411" := "No-Show/Resced", "box412" := "Exit"])
    else if location == "Schaumburg" then
      (["box439", "box440"], map["box439" := "No-Show/Resced", "box440" := "Exit"])
    else ([], map[])
  }

  /** The layout `scrape_visits_for_date` picks: the AM/PM container for a
      day before the cutoff (compared as strings), the clinic's row of
      `loc_map` from then on. */
  function PyLayout(location: string, date: string): (r: Layout)
    ensures r.AmPmBlock? <==> StrLess(date, Cutoff)
  {
    if StrLess(date, Cutoff) then AmPmBlock
    else
      var m := LocMap(location);
      Boxes(m.0, m.1)
  }

  /** After the cutoff the status map is keyed by exactly the ids read, which
      are distinct; the first box is a no-show box (spelt "No-Show/Resched"
      only at Oak Lawn) and every later box an exit box; the six clinics read
      three or two boxes and any other location none. */
  lemma PyLayoutShape(location: string, date: string)
    requires !StrLess(date, Cutoff)
    ensures var r := PyLayout(location, date);
      && r.Boxes?
      && r.statusMap.Keys == (set i | 0 <= i < |r.ids| :: r.ids[i])
      && (forall i, j :: 0 <= i < j < |r.ids| ==> r.ids[i] != r.ids[j])
      && (forall i :: 0 <= i < |r.ids| ==>
            r.statusMap[r.ids[i]] in (if i == 0 then JsScraper.NoShowLabels else JsScraper.ExitLabels))
      && (r.ids != [] ==>
            r.statusMap[r.ids[0]] == (if location == "Oak Lawn" then "No-Show/Resched" else "No-Show/Resced"))
      && (location in {"Orland Park", "Oak Lawn"} <==> |r.ids| == 3)
      && (location in {"Albany Park", "Buffalo Grove", "OakBrook", "Schaumburg"} <==> |r.ids| == 2)
      && (location !in AllLocations <==> r.ids == [])
  {
    var r := PyLayout(location, date);
    var s := r.ids;
    if |s| == 3 {
      assert r.statusMap.Keys == {s[0], s[1], s[2]};
    } else if |s| == 2 {
      assert r.statusMap.Keys == {s[0], s[1]};
    }
  }

  /** The cutoff string is the ISO form of 2025-05-31. */
  lemma CutoffIsIso()
    ensures Valid(CutoverDay) && Iso(CutoverDay) == Cutoff
  {
    JsScraper.YearDigits();
    JsScraper.MonthDigits();
    assert Digits(31, 2) == "31" by {
      assert Digits(3, 1) == "3";
    }
  }


  /** For a day in ISO form the legacy layout is used for exactly the days
      before 2025-05-31. */
  lemma PyLayoutByDay(location: string, d: Date)
    requires Valid(d)
    ensures PyLayout(location, Iso(d)).AmPmBlock? <==> DateLess(d, CutoverDay)
  {
    CutoffIsIso();
    IsoOrder(d, CutoverDay);
  }

  /** The two scrapers disagree on the days 2025-05-22 to 2025-05-30: the
      JavaScript scraper already reads the clinic's boxes, the Python one
      still reads the AM/PM container. */
  lemma CutoffsDiffer(location: string, d: Date)
    requires Valid(d) && DateLe(JsScraper.CutoverDay, d) && DateLess(d, CutoverDay)
    ensures JsScraper.JsLayout(location, Iso(d)).BoxLayout?
    ensures PyLayout(location, Iso(d)).AmPmBlock?
  {
    JsScraper.JsLayoutByDay(location, d);
    PyLayoutByDay(location, d);
  }

  /** From 2025-05-31 on both scrapers read the same boxes in the same order
      (the JavaScript selectors are the Python ids with a leading `#`) and
      give them the same labels, except the first box of the four two-box
      clinics: "No-Show/Resched" in JavaScript, "No-Show/Resced" in Python. */
  lemma LayoutsAgree(location: string, date: string)
    requires !StrLess(date, Cutoff)
    ensures var js := JsScraper.JsLayout(location, date);
      var py := PyLayout(location, date);
      && js.BoxLayout? && py.Boxes?
      && |js.selectors| == |py.ids|
      && (forall i :: 0 <= i < |py.ids| ==> js.selectors[i] == "#" + py.ids[i])
      && (forall i :: 0 <= i < |py.ids| ==>
            py.ids[i] in js.statusMap &&
            (js.statusMap[py.ids[i]] == py.statusMap[py.ids[i]]
             <==> i > 0 || location in {"Orland Park", "Oak Lawn"}))
  {
    assert !StrLess(date, JsScraper.Cutoff) by {
      if StrLess(date, JsScraper.Cutoff) {
        JsCutoffFirst();
        StrLessTransitive(date, JsScraper.Cutoff, Cutoff);
      }
    }
    if location != "Orland Park" && location != "Oak Lawn" {
      TwoBoxLayoutsAgree(location, date);
    }
  }

  lemma TwoBoxLayoutsAgree(location: string, date: string)
    requires !StrLess(date, Cutoff) && !StrLess(date, JsScraper.Cutoff)
    requires location != "Orland Park" && location != "Oak Lawn"
    ensures var js := JsScraper.JsLayout(location, date);
      var py := PyLayout(location, date);
      && js.BoxLayout? && py.Boxes?
      && |js.selectors| == |py.ids|
      && (forall i :: 0 <= i < |py.ids| ==> js.selectors[i] == "#" + py.ids[i])
      && (forall i :: 0 <= i < |py.ids| ==>
            py.ids[i] in js.statusMap && (js.statusMap[py.ids[i]] == py.statusMap[py.ids[i]] <==> i > 0))
  {
    var s := JsScraper.TwoBoxSelectors(location);
    if |s| == 2 {
      assert JsScraper.SelectorId(s[0]) != JsScraper.SelectorId(s[1]);
      JsScraper.StatusReduceAt(s, 2);
    }
  }

  // ---------------------------------------------------------------------------
  // One entry
  // ---------------------------------------------------------------------------

  /** `li.text.strip().split()`: the entry's tokens, none exactly when the
      text is blank. */
  function EntryParts(text: string): (parts: seq<string>)
    ensures parts == [] <==> AllSpace(text)
    ensures AllTokens(parts)
  {
    var t := Trim(text);
    WordsOfTrimmed(t);
    Words(t)
  }

  /** The row the scraper builds from one `<li>` of the box `boxId`: the
      stripped text split on blank runs gives the time (`parts[0]`) and the
      patient (the other pieces joined by single spaces); the title's
      `Doctor:`, `Type:` and `Reason:` lines give doctor, type and reason; the
      status is the box's label, or None when the box has none. The scraper
      builds it only for an entry with some text (a blank one has no
      `parts[0]`); the blank case is given empty time and patient so that
      the row is defined for every entry. */
  function Row(e: Entry, boxId: string, statusMap: map<string, string>,
               location: string, date: string): (v: Visit)
    ensures v.location == location && v.date == date
    ensures !AllSpace(e.text) ==> IsToken(v.time)
    ensures v.status.Some? <==> boxId in statusMap
    ensures v.status.Some? ==> v.status.value == statusMap[boxId]
  {
    var parts := EntryParts(e.text);
    Visit(location, date,
          if boxId in statusMap then Some(statusMap[boxId]) else None,
          if parts == [] then "" else parts[0],
          if parts == [] then "" else Join(parts[1..], " "),
          LabelValue(e.title, "Doctor:"), LabelValue(e.title, "Type:"),
          LabelValue(e.title, "Reason:"))
  }

  /** On an entry with some text the two parsers read the same time,
      patient, doctor and type, and copy the same clinic and day. */
  lemma ParsersAgree(e: Entry, boxId: string, statusMap: map<string, string>,
                     location: string, date: string)
    requires !AllSpace(e.text)
    ensures var v := JsScraper.ParseEntry(e, boxId, statusMap, location, date);
      var w := Row(e, boxId, statusMap, location, date);
      && v.location == w.location && v.date == w.date
      && v.time == w.time && v.patient == w.patient
      && v.doctor == w.doctor && v.visitType == w.visitType
  {
    SplitRunsOfTrimmed(Trim(e.text));
  }

  /** An entry whose text is a time token and the patient's name tokens,
      separated by any blank runs and with any blanks around them, is not
      blank and reads back as that time and that name joined by single
      spaces. */
  lemma RowReads(e: Entry, boxId: string, statusMap: map<string, string>,
                 location: string, date: string,
                 lead: string, time: string, names: seq<string>, gaps: seq<string>, tail: string)
    requires AllSpace(lead) && AllSpace(tail) && IsToken(time) && AllTokens(names)
    requires |gaps| == |names| && Gaps(gaps)
    requires e.text == lead + Spaced(time, names, gaps) + tail
    ensures !AllSpace(e.text)
    ensures Row(e, boxId, statusMap, location, date).time == time
    ensures Row(e, boxId, statusMap, location, date).patient == Join(names, " ")
  {
    JsScraper.ParseEntryReads(e, boxId, statusMap, location, date, lead, time, names, gaps, tail);
    var body := Spaced(time, names, gaps);
    SpacedTrimmed(time, names, gaps);
    TrimAround(lead, body, tail);
    assert !AllSpace(e.text) by {
      assert Trim(e.text) == body;
    }
    ParsersAgree(e, boxId, statusMap, location, date);
  }

  // ---------------------------------------------------------------------------
  // The page read
  // ---------------------------------------------------------------------------

  /** No entry of the box has blank text. */
  predicate NoBlank(entries: seq<Entry>) {
    forall i :: 0 <= i < |entries| ==> !AllSpace(entries[i].text)
  }

  lemma NoBlankSnoc(entries: seq<Entry>)
    requires entries != []
    ensures NoBlank(entries) <==> NoBlank(entries[..|entries| - 1]) && !AllSpace(entries[|entries| - 1].text)
  {
    var n := |entries|;
    assert forall i :: 0 <= i < n - 1 ==> entries[..n - 1][i] == entries[i];
  }

  /** The rows of a box's entries, in document order. */
  function Rows(entries: seq<Entry>, boxId: string, statusMap: map<string, string>,
                location: string, date: string): (vs: seq<Visit>)
  {
    MapRows(entries, e => Row(e, boxId, statusMap, location, date))
  }

  lemma RowsAt(entries: seq<Entry>, boxId: string, statusMap: map<string, string>,
               location: string, date: string, i: nat)
    requires i < |entries|
    ensures |Rows(entries, boxId, statusMap, location, date)| == |entries|
    ensures Rows(entries, boxId, statusMap, location, date)[i] == Row(entries[i], boxId, statusMap, location, date)
  {
    MapRowsAt(entries, e => Row(e, boxId, statusMap, location, date), i);
  }

  /** What reading one box yields: a blank entry stops the read (there is no
      `parts[0]`), otherwise it gives one row per entry. */
  function BoxRows(entries: seq<Entry>, boxId: string, statusMap: map<string, string>,
                   location: string, date: string): Result<seq<Visit>, ExtractError>
  {
    if NoBlank(entries) then Success(Rows(entries, boxId, statusMap, location, date))
    else Failure(EmptyEntry)
  }

  /** How one container is read, given its entries and its id. */
  type BoxReader = (seq<Entry>, string) -> Result<seq<Visit>, ExtractError>

  /** The reader `scrape_visits_for_date` applies to every container of a
      layout whose statuses are given by `statusMap`. */
  function Reader(statusMap: map<string, string>, location: string, date: string): BoxReader {
    (entries: seq<Entry>, boxId: string) => BoxRows(entries, boxId, statusMap, location, date)
  }

  /** The rows of the first `n` containers, box after box, stopping at the
      first container missing from the page or the first box whose read fails. */
  function IdsRows(page: Page, ids: seq<string>, read: BoxReader, n: nat): Result<seq<Visit>, ExtractError>
    requires n <= |ids|
  {
    if n == 0 then Success([])
    else
      match IdsRows(page, ids, read, n - 1)
      case Failure(e) => Failure(e)
      case Success(vs) =>
        var id := ids[n - 1];
        if id !in page.boxes then Failure(MissingContainer)
        else
          match read(page.boxes[id], id)
          case Failure(e) => Failure(e)
          case Success(ws) => Success(vs + ws)
  }

  /** `scrape_visits_for_date`: what one page read yields. */
  function Extract(page: Page, location: string, date: string): Result<seq<Visit>, ExtractError>
  {
    match PyLayout(location, date)
    case AmPmBlock =>
      if page.amPmBox.None? then Failure(NoAmPmContainer)
      else IdsRows(page, [page.amPmBox.value], Reader(map[], location, date), 1)
    case Boxes(ids, statusMap) =>
      IdsRows(page, ids, Reader(statusMap, location, date), |ids|)
  }

  /** A row as the page read can produce it for a clinic and day. */
  predicate RowOf(v: Visit, statusMap: map<string, string>, location: string, date: string) {
    v.location == location && v.date == date && IsToken(v.time)
    && (v.status.Some? ==> v.status.value in statusMap.Values)
  }

  /** Every element of `vs` satisfies `p`. */
  predicate AllOf(vs: seq<Visit>, p: Visit -> bool) {
    forall i :: 0 <= i < |vs| ==> p(vs[i])
  }

  lemma AllOfAppend(a: seq<Visit>, b: seq<Visit>, p: Visit -> bool)
    requires AllOf(a, p) && AllOf(b, p)
    ensures AllOf(a + b, p)
  {
    forall i | 0 <= i < |a + b|
      ensures p((a + b)[i])
    {
      if i >= |a| {
        assert (a + b)[i] == b[i - |a|];
      }
    }
  }

  lemma RowsOf(entries: seq<Entry>, boxId: string, statusMap: map<string, string>,
               location: string, date: string)
    requires NoBlank(entries)
    ensures var b := Rows(entries, boxId, statusMap, location, date);
      forall i :: 0 <= i < |b| ==> RowOf(b[i], statusMap, location, date)
  {
    var b := Rows(entries, boxId, statusMap, location, date);
    forall i | 0 <= i < |b|
      ensures RowOf(b[i], statusMap, location, date)
    {
      RowsAt(entries, boxId, statusMap, location, date, i);
      if b[i].status.Some? {
        assert statusMap[boxId] in statusMap.Values;
      }
    }
  }

  /** When every container read that succeeds yields rows satisfying `p`,
      so does every successful read of several containers. */
  lemma {:induction false} IdsRowsAll(page: Page, ids: seq<string>, read: BoxReader, p: Visit -> bool, n: nat)
    requires n <= |ids| && IdsRows(page, ids, read, n).Success?
    requires forall id :: id in page.boxes && read(page.boxes[id], id).Success? ==> AllOf(read(page.boxes[id], id).value, p)
    ensures AllOf(IdsRows(page, ids, read, n).value, p)
  {
    if n > 0 {
      IdsRowsSnoc(page, ids, read, n);
      IdsRowsAll(page, ids, read, p, n - 1);
      var id := ids[n - 1];
      AllOfAppend(IdsRows(page, ids, read, n - 1).value, read(page.boxes[id], id).value, p);
    }
  }

  lemma IdsRowsSnoc(page: Page, ids: seq<string>, read: BoxReader, n: nat)
    requires 0 < n <= |ids| && IdsRows(page, ids, read, n).Success?
    ensures IdsRows(page, ids, read, n - 1).Success?
    ensures ids[n - 1] in page.boxes && read(page.boxes[ids[n - 1]], ids[n - 1]).Success?
    ensures IdsRows(page, ids, read, n).value
         == IdsRows(page, ids, read, n - 1).value + read(page.boxes[ids[n - 1]], ids[n - 1]).value
  {
  }

  /** The reader of a layout only yields rows of that layout. */
  lemma ReaderRows(page: Page, statusMap: map<string, string>, location: string, date: string)
    ensures var read := Reader(statusMap, location, date);
      forall id :: id in page.boxes && read(page.boxes[id], id).Success? ==>
        AllOf(read(page.boxes[id], id).value, v => RowOf(v, statusMap, location, date))
  {
    var read := Reader(statusMap, location, date);
    forall id | id in page.boxes && read(page.boxes[id], id).Success?
      ensures AllOf(read(page.boxes[id], id).value, v => RowOf(v, statusMap, location, date))
    {
      RowsOf(page.boxes[id], id, statusMap, location, date);
    }
  }

  /** Every row of a successful read carries the clinic and day it was read
      for, a time token, and either no status or one of the layout's labels;
      before the cutoff no row has a status. */
  lemma ExtractRows(page: Page, location: string, date: string)
    requires Extract(page, location, date).Success?
    ensures forall v :: v in Extract(page, location, date).value ==>
      && v.location == location && v.date == date && IsToken(v.time)
      && (v.status.Some? ==> v.status.value in JsScraper.NoShowLabels + JsScraper.ExitLabels)
      && (StrLess(date, Cutoff) ==> v.status.None?)
  {
    var r := PyLayout(location, date);
    if r.AmPmBlock? {
      ReaderRows(page, map[], location, date);
      IdsRowsAll(page, [page.amPmBox.value], Reader(map[], location, date),
                 v => RowOf(v, map[], location, date), 1);
    } else {
      ReaderRows(page, r.statusMap, location, date);
      IdsRowsAll(page, r.ids, Reader(r.statusMap, location, date),
                 v => RowOf(v, r.statusMap, location, date), |r.ids|);
      PyLayoutShape(location, date);
      forall k | k in r.statusMap
        ensures r.statusMap[k] in JsScraper.NoShowLabels + JsScraper.ExitLabels
      {
        var i :| 0 <= i < |r.ids| && r.ids[i] == k;
      }
    }
  }

  /** After the cutoff a location missing from `loc_map` reads nothing and
      succeeds with no rows. */
  lemma ExtractUnknownLocation(page: Page, location: string, date: string)
    requires !StrLess(date, Cutoff) && location !in AllLocations
    ensures Extract(page, location, date) == Success([])
  {
    PyLayoutShape(location, date);
  }

  /** Before both cutoffs the two scrapers read the same AM/PM container.
      When it is on the page and none of its entries is blank, both reads
      succeed with rows that match one for one in everything but the
      reason, which only the Python scraper reads. */
  lemma LegacyReadsAgree(page: Page, location: string, date: string)
    requires StrLess(date, JsScraper.Cutoff)
    requires page.amPmBox.Some? && page.amPmBox.value in page.boxes
    requires NoBlank(page.boxes[page.amPmBox.value])
    ensures var js := JsScraper.Extract(page, location, date);
      var py := Extract(page, location, date);
      && js.Success? && py.Success? && |js.value| == |py.value|
      && forall i :: 0 <= i < |py.value| ==> js.value[i] == py.value[i].(reason := None)
  {
    var id := page.amPmBox.value;
    var entries := page.boxes[id];
    assert StrLess(date, Cutoff) by {
      JsCutoffFirst();
      StrLessTransitive(date, JsScraper.Cutoff, Cutoff);
    }
    JsLegacyRead(page, location, date);
    PyLegacyRead(page, location, date);
    LegacyRowsAgree(entries, id, location, date);
  }

  /** Before the cutoff the Python read of a page with a present AM/PM
      container and no blank entry is that container's rows. */
  lemma PyLegacyRead(page: Page, location: string, date: string)
    requires StrLess(date, Cutoff)
    requires page.amPmBox.Some? && page.amPmBox.value in page.boxes
    requires NoBlank(page.boxes[page.amPmBox.value])
    ensures var id := page.amPmBox.value;
      Extract(page, location, date) == Success(Rows(page.boxes[id], id, map[], location, date))
  {
    var id := page.amPmBox.value;
    var py := Rows(page.boxes[id], id, map[], location, date);
    assert IdsRows(page, [id], Reader(map[], location, date), 0) == Success([]);
    assert [] + py == py;
  }

  /** The two parsers give the same rows, up to the Python-only `reason`. */
  lemma LegacyRowsAgree(entries: seq<Entry>, id: string, location: string, date: string)
    requires NoBlank(entries)
    ensures var js := JsScraper.BoxRows(entries, id, map[], location, date);
      var py := Rows(entries, id, map[], location, date);
      |js| == |py| && forall i :: 0 <= i < |py| ==> js[i] == py[i].(reason := None)
  {
    var js := JsScraper.BoxRows(entries, id, map[], location, date);
    var py := Rows(entries, id, map[], location, date);
    forall i | 0 <= i < |py|
      ensures js[i] == py[i].(reason := None)
    {
      JsScraper.BoxRowsAt(entries, id, map[], location, date, i);
      RowsAt(entries, id, map[], location, date, i);
      ParsersAgree(entries[i], id, map[], location, date);
    }
  }

  lemma JsCutoffFirst()
    ensures StrLess(JsScraper.Cutoff, Cutoff)
  {
    assert JsScraper.Cutoff == "2025-05-" + "22" && Cutoff == "2025-05-" + "31";
    StrLessAppend("2025-05-", "2025-05-", "22", "31");
  }

  /** The JavaScript legacy read of a page whose AM/PM container is present
      is the rows of that container. */
  lemma JsLegacyRead(page: Page, location: string, date: string)
    requires StrLess(date, JsScraper.Cutoff)
    requires page.amPmBox.Some? && page.amPmBox.value in page.boxes
    ensures var id := page.amPmBox.value;
      JsScraper.Extract(page, location, date)
        == Success(JsScraper.BoxRows(page.boxes[id], id, map[], location, date))
  {
    var id := page.amPmBox.value;
    var sel := ["#" + id];
    assert JsScraper.SelectorId(sel[0]) == id;
    assert JsScraper.AllPresent(page, sel);
    var b := JsScraper.BoxRows(page.boxes[id], id, map[], location, date);
    assert JsScraper.PageRows(page, sel, JsScraper.Reader(map[], location, date), 1) == [] + b;
    assert [] + b == b;
  }

  /** The page read as the scraper runs it: for each container id, find the
      element (failing when it is missing), then append one row per `<li>`
      (failing on a blank one, which has no `parts[0]`). */
  method ScrapeVisitsForDate(page: Page, location: string, date: string)
    returns (r: Result<seq<Visit>, ExtractError>)
    ensures r == Extract(page, location, date)
  {
    var layout := PyLayout(location, date);
    if layout.AmPmBlock? {
      if page.amPmBox.None? {
        return Failure(NoAmPmContainer);
      }
      r := ReadContainers(page, [page.amPmBox.value], map[], location, date);
    } else {
      r := ReadContainers(page, layout.ids, layout.statusMap, location, date);
    }
  }

  /** The loop over the container ids: the rows of each container in turn,
      stopping at the first missing container or failing box. */
  method ReadContainers(page: Page, boxes: seq<string>, statusMap: map<string, string>,
                        location: string, date: string)
    returns (r: Result<seq<Visit>, ExtractError>)
    ensures r == IdsRows(page, boxes, Reader(statusMap, location, date), |boxes|)
  {
    var visits: seq<Visit> := [];
    for b := 0 to |boxes|
      invariant IdsRows(page, boxes, Reader(statusMap, location, date), b) == Success(visits)
    {
      var rows := ReadNext(page, boxes, statusMap, location, date, b, visits);
      if rows.Failure? {
        return Failure(rows.error);
      }
      visits := visits + rows.value;
    }
    r := Success(visits);
  }

  /** One turn of the loop over the container ids: the next container's rows,
      appended to what was read so far, or the error that ends the read. */
  method ReadNext(page: Page, boxes: seq<string>, statusMap: map<string, string>,
                  location: string, date: string, b: nat, visits: seq<Visit>)
    returns (rows: Result<seq<Visit>, ExtractError>)
    requires b < |boxes| && IdsRows(page, boxes, Reader(statusMap, location, date), b) == Success(visits)
    ensures rows.Failure? ==> IdsRows(page, boxes, Reader(statusMap, location, date), |boxes|) == Failure(rows.error)
    ensures rows.Success? ==> IdsRows(page, boxes, Reader(statusMap, location, date), b + 1) == Success(visits + rows.value)
  {
    rows := ReadContainer(page, boxes[b], statusMap, location, date);
    if rows.Failure? {
      IdsRowsFail(page, boxes, statusMap, location, date, b, visits, rows.error);
    } else {
      IdsRowsNext(page, boxes, statusMap, location, date, b, visits);
    }
  }

  /** One container id: `find_element` fails when it is missing, otherwise
      the rows of its box. */
  method ReadContainer(page: Page, bid: string, statusMap: map<string, string>,
                       location: string, date: string)
    returns (r: Result<seq<Visit>, ExtractError>)
    ensures r == ContainerRows(page, bid, statusMap, location, date)
  {
    if bid !in page.boxes {
      return Failure(MissingContainer);
    }
    r := ReadBox(page.boxes[bid], bid, statusMap, location, date);
  }

  /** The rows of one container: for each `<li>`, split its stripped text
      (failing when there is no `parts[0]`) and read its title's labels. */
  method ReadBox(lis: seq<Entry>, bid: string, statusMap: map<string, string>,
                 location: string, date: string)
    returns (r: Result<seq<Visit>, ExtractError>)
    ensures r == BoxRows(lis, bid, statusMap, location, date)
  {
    var visits: seq<Visit> := [];
    for k := 0 to |lis|
      invariant NoBlank(lis[..k])
      invariant visits == Rows(lis[..k], bid, statusMap, location, date)
    {
      var parts := EntryParts(lis[k].text);
      if parts == [] {
        BlankStops(lis, k);
        return Failure(EmptyEntry);
      }
      var status := if bid in statusMap then Some(statusMap[bid]) else None;
      var title := lis[k].title;
      var v := Visit(location, date, status, parts[0], Join(parts[1..], " "),
                     LabelValue(title, "Doctor:"), LabelValue(title, "Type:"), LabelValue(title, "Reason:"));
      RowsSnoc(lis, k, bid, statusMap, location, date);
      visits := visits + [v];
    }
    assert lis[..|lis|] == lis;
    r := Success(visits);
  }

  lemma BlankStops(lis: seq<Entry>, k: nat)
    requires k < |lis| && AllSpace(lis[k].text)
    ensures !NoBlank(lis)
  {
  }

  lemma RowsSnoc(lis: seq<Entry>, k: nat, bid: string, statusMap: map<string, string>,
                 location: string, date: string)
    requires k < |lis| && NoBlank(lis[..k]) && !AllSpace(lis[k].text)
    ensures NoBlank(lis[..k + 1])
    ensures Rows(lis[..k + 1], bid, statusMap, location, date)
         == Rows(lis[..k], bid, statusMap, location, date) + [Row(lis[k], bid, statusMap, location, date)]
  {
    assert lis[..k + 1][..k] == lis[..k];
    NoBlankSnoc(lis[..k + 1]);
    MapRowsSnoc(lis, e => Row(e, bid, statusMap, location, date), k);
  }

  /** The rows of the container `id`, or why it cannot be read. */
  function ContainerRows(page: Page, id: string, statusMap: map<string, string>,
                         location: string, date: string): Result<seq<Visit>, ExtractError>
  {
    if id !in page.boxes then Failure(MissingContainer)
    else BoxRows(page.boxes[id], id, statusMap, location, date)
  }

  /** One more container: a missing or failing one stops the read, otherwise
      its rows are appended. */
  lemma IdsRowsNext(page: Page, ids: seq<string>, statusMap: map<string, string>,
                    location: string, date: string, b: nat, vs: seq<Visit>)
    requires b < |ids| && IdsRows(page, ids, Reader(statusMap, location, date), b) == Success(vs)
    ensures IdsRows(page, ids, Reader(statusMap, location, date), b + 1)
         == match ContainerRows(page, ids[b], statusMap, location, date)
            case Failure(e) => Failure(e)
            case Success(ws) => Success(vs + ws)
  {
  }

  /** A missing or failing container ends the whole read with its error. */
  lemma IdsRowsFail(page: Page, ids: seq<string>, statusMap: map<string, string>,
                    location: string, date: string, b: nat, vs: seq<Visit>, e: ExtractError)
    requires b < |ids| && IdsRows(page, ids, Reader(statusMap, location, date), b) == Success(vs)
    requires ContainerRows(page, ids[b], statusMap, location, date) == Failure(e)
    ensures IdsRows(page, ids, Reader(statusMap, location, date), |ids|) == Failure(e)
  {
    IdsRowsNext(page, ids, statusMap, location, date, b, vs);
    IdsRowsStop(page, ids, Reader(statusMap, location, date), b + 1, |ids|);
  }

  /** Once the read has stopped, the later containers change nothing. */
  lemma {:induction false} IdsRowsStop(page: Page, ids: seq<string>, read: BoxReader, n: nat, m: nat)
    requires n <= m <= |ids| && IdsRows(page, ids, read, n).Failure?
    ensures IdsRows(page, ids, read, m) == IdsRows(page, ids, read, n)
    decreases m
  {
    if m > n {
      IdsRowsStop(page, ids, read, n, m - 1);
    }
  }
}
