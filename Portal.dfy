/** The data both scrapers share: what the portal's pages look like to the
    browser, the visit record they produce, the natural key the JavaScript
    sync upserts by, and the operations a sync run performs against the
    portal, recorded in order. */
module Portal {
  import opened Wrappers
  import opened Dates

  /** The clinics, in the order both `ALL_LOCATIONS` lists give them. */
  const AllLocations: seq<string> :=
    ["Oak Lawn", "Orland Park", "Albany Park", "Buffalo Grove", "OakBrook", "Schaumburg"]

  /** One `<li>` of a slot list: its rendered text and its `title` attribute
      (`""` when the attribute is absent, as `|| ''` and `or ''` make it). */
  datatype Entry = Entry(text: string, title: string)

  /** The scheduler page for one clinic and day: every
      `ul[data-role="droptarget"]` by id with its `<li>` entries in document
      order, and the id of the droptarget inside the first `.k-block` whose
      text holds both "AM" and "PM" (None when there is no such block, or it
      holds no droptarget). */
  datatype Page = Page(boxes: map<string, seq<Entry>>, amPmBox: Option<string>)

  /** Python's `set_date` waits until some droptarget holds an `<li>`. */
  predicate HasSlots(page: Page) {
    exists id :: id in page.boxes && |page.boxes[id]| > 0
  }

  /** The portal as a browser session meets it: whether the login flow gets
      through to the dashboard, the clinic names the location dropdown
      offers, the clinic selected right after login, and the page shown once
      a clinic and an ISO day are selected (None when selecting the day never
      produces a page: the navigation or the slots never come). */
  datatype Portal = Portal(
    loginSucceeds: bool,
    clinics: set<string>,
    home: string,
    render: (string, string) -> Option<Page>)

  /** A visit row (the fields of the Visit schema). `visitType` is the
      schema's `type`. The JavaScript scraper never sets `reason`. */
  datatype Visit = Visit(
    location: string,
    date: string,
    status: Option<string>,
    time: string,
    patient: string,
    doctor: Option<string>,
    visitType: Option<string>,
    reason: Option<string>)

  /** The natural key `(location, date, patient, time)`. */
  datatype VisitKey = VisitKey(location: string, date: string, patient: string, time: string)

  function KeyOf(v: Visit): VisitKey {
    VisitKey(v.location, v.date, v.patient, v.time)
  }

  /** What can go wrong while reading one page. */
  datatype ExtractError =
    | NoAmPmContainer   // the legacy page has no AM/PM block with a droptarget
    | MissingContainer  // a container of the layout is not on the page
    | EmptyEntry        // an entry with blank text (Python's `parts[0]` fails)

  /** Why a sync run stopped. */
  datatype SyncError =
    | AuthError
    | LocationNotFound(location: string)
    | NavigationTimeout(location: string, day: Date)
    | Extraction(location: string, day: Date, cause: ExtractError)
    | BadDate(text: string)

  /** The operations a run performs against the portal and the file system,
      in the order it performs them. */
  datatype Op =
    | Login
    | ChangeLocation(location: string)
    | SetDate(day: Date)
    | Scrape(location: string, day: Date)
    | WriteCsv(path: string, text: string)

  /** One row per entry, in document order. */
  function MapRows(entries: seq<Entry>, row: Entry -> Visit): (vs: seq<Visit>)
    ensures |vs| == |entries|
  {
    if entries == [] then [] else MapRows(entries[..|entries| - 1], row) + [row(entries[|entries| - 1])]
  }

  lemma {:induction false} MapRowsAt(entries: seq<Entry>, row: Entry -> Visit, i: nat)
    requires i < |entries|
    ensures MapRows(entries, row)[i] == row(entries[i])
  {
    var n := |entries|;
    if i < n - 1 {
      MapRowsAt(entries[..n - 1], row, i);
      assert entries[..n - 1][i] == entries[i];
    }
  }

  lemma MapRowsSnoc(entries: seq<Entry>, row: Entry -> Visit, k: nat)
    requires k < |entries|
    ensures MapRows(entries[..k + 1], row) == MapRows(entries[..k], row) + [row(entries[k])]
  {
    assert entries[..k + 1][..k] == entries[..k];
  }
}
