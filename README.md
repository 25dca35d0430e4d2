# Clinic visit sync and reports, modelled in Dafny

The clinic website keeps, for each of six clinics, a store of patient-visit
rows that it copies from a scheduling portal with no API. Two scrapers fill
the store: `src/scraper.js` (Puppeteer) and `src/scraperselenium.py`
(Selenium). A small Express server, `src/index.js`, answers three report
queries over it. This project models the logic of those three files with the
browser and MongoDB abstracted away, and proves what they promise.

| Module | What it holds |
|---|---|
| `Wrappers` | `Option` and `Result`. |
| `Text` | The string operations:<br>- blanks, `trim`/`strip`;<br>- both ways of splitting on blanks, and `join`;<br>- splitting on one character;<br>- the lexicographic `<` that JavaScript, Python and MongoDB use on strings;<br>- zero-padded numbers;<br>- the two clinic-name-to-collection-name replacements;<br>- the regular expression `Label:\s*([^\n]+)` with its greedy `\s*` and the backtracking it needs. |
| `Dates` | Civil dates:<br>- the next day and a day number;<br>- the weekday as both languages report it;<br>- Python's inclusive day range;<br>- the `YYYY-MM-DD` text form and its parser. |
| `Portal` | What the scrapers see of the portal:<br>- a page is a map from droptarget id to its `<li>` entries `(text, title)`, plus the id of the legacy AM/PM container;<br>- a portal gives a page per clinic and day;<br>- the visit row and its natural key;<br>- the error kinds;<br>- the operations a run performs, recorded in order. |
| `JsScraper` | `scrapeVisitsForDate`:<br>- the container/status-map table against the cutover date 2025-05-22;<br>- the `<li>` parser;<br>- the page read, as a function and as the nested loop the page script runs;<br>- the CSV dump text. |
| `JsSync` | The MongoDB store as a `class` whose collections are maps from natural key to row. `syncLocationsRange` is given:<br>- as a function over the portal and the store;<br>- as the methods that change the store;<br>- with the `syncRange`/`syncVisits` shims. |
| `PyScraper` | `scrape_visits_for_date`:<br>- the `loc_map` table against the cutover date 2025-05-31;<br>- the entry parser;<br>- the page read.<br><br>It also holds lemmas comparing both scrapers. |
| `PySync` | The store as a `class` whose collections are row sequences that only grow. It holds:<br>- `sync_locations_range`, as a function and as methods;<br>- the `__main__` argument split. |
| `Api` | The leaderboard, KPI and comparison handlers over an in-memory database:<br>- parameter validation and `'All'` expansion;<br>- the inclusive date filter;<br>- `$group`/`$sort` as a tally sorted by count;<br>- the month windows. |

Each sync is modelled as a pure function, e.g. `JsSync.JsSync` or
`PySync.PySync`. It returns:
- the final store;
- the list of operations performed: `Login`, `ChangeLocation`, `SetDate`,
  `Scrape` and `WriteCsv`;
- the error that stopped the run, if any.

The methods (`SyncLocationsRange`, `SyncDay`, …) run the same loops against a
store object. Their `ensures` states that the new store, trace and error are
exactly that function's value. The properties are then proved about the
function:
- only Mondays to Saturdays in the range are scraped;
- a day already stored is never scraped again;
- nothing stored is lost;
- the JavaScript store never holds two rows with one key, provided each
  collection starts with at most one row per key. The JavaScript properties
  assume this of the starting store. Both scripts write the same collections,
  and rows appended by the Python `insert_many` can break it;
- after a run without error, every weekday of the range is covered;
- re-running over a range whose weekdays are all stored changes nothing.
  A weekday that is covered only because its page showed no rows is not
  stored, so a later run sets that date and reads it again.

How the code behaves in a few places that matter for the proofs:
- Both syncs log in and select every requested clinic on every run, even a
  clinic whose days are all stored (`src/scraper.js:190-194`,
  `src/scraperselenium.py:191-193`). The check for stored data is made per
  day, inside the day loop.
- The rows of one page come in container order, and within a container in
  document order.
- In JavaScript, the Orland Park no-show box is labelled `No-Show/Resced`
  (`src/scraper.js:128`); the other clinics use `No-Show/Resched`. In Python,
  only Oak Lawn uses `No-Show/Resched`; the other five use `No-Show/Resced`.
- Python's `change_location` swallows the error for a clinic the dropdown
  does not offer. The run then reads the previously selected clinic's pages
  and stores their rows under the requested name (`PySync.StaleClinic`).
- In Python, an entry with blank text has no `parts[0]` after `strip()`, so
  the read raises. The model records this as `EmptyEntry`, which stops the
  run.
- Python treats a date `set_date` cannot show as "no slots" and skips it.
  JavaScript's `setDate` times out and ends the run.
- Python stores rows with `insert_many`, so a row scraped twice is stored
  twice. JavaScript upserts by natural key and keeps one (`PySync.DuplicatesKept`).

## Model

| member | source | states |
|---|---|---|
| Text.TrimStart | src/scraper.js:158 | the result is a suffix of the input; everything dropped is blank; it does not start with a blank |
| Text.TrimEnd | src/scraper.js:158 | the result is a prefix of the input; everything dropped is blank; it does not end with a blank |
| Text.Trim | src/scraper.js:158 | `trim()`/`strip()`: neither end is blank; empty exactly when the input is all blank; a string without blank ends is unchanged |
| Text.TrimKeepsOut | src/scraper.js:171-172 | trimming only removes characters, so a character absent before is absent after |
| Text.WordLen | src/scraperselenium.py:156 | the leading non-blank run: no blank inside it, and a blank or the end right after it |
| Text.SpaceLen | src/scraper.js:162 | the leading blank run: only blanks, then a non-blank or the end |
| Text.Words | src/scraperselenium.py:156 | `str.split()`: every piece is a non-empty run of non-blanks |
| Text.WordsOfTrimmed | src/scraperselenium.py:155-157 | a stripped text has no tokens exactly when it is empty |
| Text.SplitRuns | src/scraper.js:159 | `split(/\s+/)`: at least one piece, none containing a blank |
| Text.IndexOf | src/scraper.js:162 | the first position of the character, or the length when it is absent |
| Text.SplitOn | src/scraper.js:228-229 | one-character split: at least one piece, none containing the separator |
| Text.WordsSkip | src/scraperselenium.py:156 | dropping part of a leading blank run does not change the tokens |
| Text.SplitRunsOfTrimmed | src/scraper.js:158-159 | on a trimmed non-empty text, `split(/\s+/)` and Python's `split()` give the same tokens |
| Text.WordsOfSpaced | src/scraperselenium.py:156 | `split()` turns tokens separated by any non-empty blank runs into exactly those tokens |
| Text.SpacedTrimmed | src/scraper.js:158 | tokens separated by blank runs form a non-empty text that starts with the first token and ends with a non-blank |
| Text.WordsOfJoin | src/scraper.js:159-160 | joining tokens with single spaces and splitting again returns the tokens |
| Text.JoinTrimmed | src/scraper.js:160 | tokens joined by single spaces form a trimmed string beginning with the first token |
| Text.SplitOnJoin | src/scraper.js:227-229 | joining separator-free pieces with a character and splitting on it returns the pieces |
| Text.StrLessTrichotomy | src/scraper.js:114 | the string order `<` is irreflexive, asymmetric and total |
| Text.StrLessTransitive | src/scraper.js:114 | the string order is transitive |
| Text.StrLessAppend | src/scraper.js:114 | comparing concatenations with equal-length heads compares the heads, then the tails |
| Text.Pow10 | src/scraperselenium.py:199 | the power of ten is positive |
| Text.Digits | src/scraperselenium.py:199 | a zero-padded number has exactly the requested width |
| Text.DigitsOrder | src/scraper.js:114 | zero-padded numbers of one width compare as strings exactly as they compare as numbers, and are equal exactly when the numbers are |
| Text.ReplaceRuns | src/scraper.js:197 | `replace(/\s+/g, '_')` leaves no blank and never lengthens the name |
| Text.ReplaceRunsGap | src/scraper.js:197 | a maximal blank run of any length, before a non-blank or the end, becomes one `_` |
| Text.ReplaceRunsSpaced | src/scraper.js:197 | tokens separated by any non-empty blank runs become the tokens joined by single `_` |
| Text.ReplaceSpaces | src/scraperselenium.py:200 | `replace(' ', '_')` keeps the length and leaves no space |
| Text.ReplaceRunsToken | src/scraper.js:197 | a leading token is kept as is by the run replacement |
| Text.ReplaceSpacesAppend | src/scraperselenium.py:200 | the space replacement works piece by piece |
| Text.CollectionNamesAgree | src/scraperselenium.py:200 | for a name of single-space-separated words, both replacements produce the words joined by `_`, so the two scrapers write the same collection |
| Text.ReplacementsAgree | src/scraperselenium.py:200 | on tokens separated by blank runs, the JavaScript and Python collection names are equal exactly when every separator is one space (`Oak  Lawn` gives `Oak_Lawn` against `Oak__Lawn`) |
| Text.CaptureStart | src/scraper.js:162 | the backtracked start of `([^\n]+)` after a greedy `\s*`: the last non-newline position of the blank run, or none when all of them are newlines |
| Text.MatchAt | src/scraper.js:162 | a match at a position starts with the label, and the captured value is a trimmed single line |
| Text.SearchFromSound | src/scraper.js:162 | a leftmost search succeeds only where the label occurs, and never when it does not occur |
| Text.LabelValueSound | src/scraper.js:171-172 | a found field is one trimmed line; a title without the label gives null |
| Text.SearchFromSkip | src/scraper.js:162 | positions where the label does not start can be skipped by the search |
| Text.LabelValueReads | src/scraper.js:162-172 | a title `pre + label + blanks + v + tb + rest` (label not earlier, `v` one trimmed line, `tb` trailing blanks on that line such as spaces or a `\r`, `rest` empty or a new line) yields exactly `v`, as the capture followed by `trim()`/`strip()` does |
| Text.MatchAtReads | src/scraper.js:162-172 | a match at a position where `label + blanks + v + tb + rest` starts gives exactly `v` once trimmed |
| Text.MatchAtAt | src/scraper.js:162-172 | a match whose blank run ends where `v + tb + rest` starts gives exactly `v` once trimmed |
| Text.MatchAtLine | src/scraper.js:162 | where the blank run after the label ends at a non-newline, `([^\n]+)` captures the rest of that line, up to the newline or the end |
| Text.LineAt | src/scraper.js:162 | a capture starts with the label and holds no newline |
| Dates.Next | src/scraper.js:202 | the next day is a calendar day, one day number later, later in date order, and valid unless it passes 9999-12-31 |
| Dates.DayNumberOrder | src/scraperselenium.py:196 | day numbers follow date order, and equal day numbers mean equal days |
| Dates.PyWeekday | src/scraperselenium.py:197 | `weekday()` lies in 0..6 |
| Dates.JsUtcDay | src/scraper.js:204 | `getUTCDay()` lies in 0..6 and is 0 exactly when Python's `weekday()` is 6 |
| Dates.WeekdayOfNext | src/scraperselenium.py:196-197 | the weekday advances by one each day, Sunday wrapping to Monday |
| Dates.June2025Weekdays | src/scraperselenium.py:197 | 2025-06-15 is a Sunday; 2025-06-16 is a Monday and 2025-06-19 a Thursday |
| Dates.Days | src/scraperselenium.py:196 | `n` consecutive days from a start, exactly `n` of them |
| Dates.DaysAt | src/scraperselenium.py:196 | the i-th day is `start + i` days, and each is the next of the one before |
| Dates.DateRangeSpec | src/scraperselenium.py:196 | `start + timedelta(days=i)` for `i` in `range((end - start).days + 1)`: exactly the valid days from start to end, in strictly increasing order, the i-th i days after start |
| Dates.Iso | src/scraperselenium.py:199 | `strftime('%Y-%m-%d')` has ten characters |
| Dates.IsoOrder | src/scraper.js:114 | on `YYYY-MM-DD` strings the string order is date order, and equal text means the same day |
| Dates.IsoLe | src/scraper.js:202 | the same fact with `<=` |
| Dates.ParseIso | src/scraperselenium.py:194-195 | `fromisoformat` on `YYYY-MM-DD` yields a valid day or fails |
| Dates.ParseIsoOfIso | src/scraperselenium.py:194-199 | parsing a formatted day returns the day |
| Dates.IsoOfParseIso | src/scraperselenium.py:194-199 | formatting a parsed day returns the text |
| Dates.DateRangeValid | src/scraperselenium.py:196 | every day of the range is valid |
| Dates.DateRangeInRange | src/scraperselenium.py:194-196 | every day of the range the two parsed strings give lies between them |
| Portal.MapRows | src/scraper.js:156-176 | one row per entry |
| Portal.MapRowsAt | src/scraper.js:156-176 | row `i` is entry `i` parsed |
| JsScraper.StatusReduceKeys | src/scraper.js:140-143 | the `reduce`'s map is keyed by exactly the ids of the selectors |
| JsScraper.StatusReduceAt | src/scraper.js:140-143 | for distinct ids, the first box gets `No-Show/Resched` and every other box `Exit` |
| JsScraper.JsLayout | src/scraper.js:110-144 | the legacy AM/PM container is used exactly when `date < '2025-05-22'` as strings |
| JsScraper.JsLayoutShape | src/scraper.js:126-144 | from the cutover on: the status map is keyed by exactly the ids read; the first box is a no-show box and every later one an exit box; Orland Park and Oak Lawn read three boxes, the four other clinics two, any other location none |
| JsScraper.ThreeBoxShape | src/scraper.js:126-131 | Orland Park's and Oak Lawn's three boxes and labels have that shape |
| JsScraper.TwoBoxShape | src/scraper.js:132-143 | the two-box table and its `reduce` have that shape |
| JsScraper.CutoffIsIso | src/scraper.js:111 | `'2025-05-22'` is the ISO text of 2025-05-22 |
| JsScraper.JsLayoutByDay | src/scraper.js:111-114 | for an ISO day, the legacy layout is used exactly for the days before 2025-05-22 |
| JsScraper.ParseEntry | src/scraper.js:158-172 | the row copies clinic and date and has no reason; its time has no blank; its status is the box's label exactly when the box has a non-empty one, otherwise null |
| JsScraper.ParseEntryReads | src/scraper.js:158-160 | text of a time token and name tokens separated by any blank runs (tabs, newlines, several spaces), with any blanks around them, reads as that time and the names joined by single spaces |
| JsScraper.ParseEntryBlank | src/scraper.js:158-160 | blank text gives an empty time and an empty patient |
| Text.TrimAround | src/scraper.js:158 | trimming blanks around a trimmed body gives the body |
| JsScraper.BoxRows | src/scraper.js:157-174 | one row per `<li>` |
| JsScraper.BoxRowsAt | src/scraper.js:157-174 | row `i` of a box is its `i`-th entry parsed |
| JsScraper.PageRowsAll | src/scraper.js:156-175 | a property of every row one box read gives holds of every row of the page |
| JsScraper.PageRowsOf | src/scraper.js:156-175 | every row of the page carries the clinic, the date, no reason, and a status from the map or null |
| JsScraper.ExtractRows | src/scraper.js:154-177 | every row of a successful read carries the clinic and day, no reason, and either no status or a no-show/exit label of the layout; before the cutover none has a status |
| JsScraper.ExtractUnknownLocation | src/scraper.js:139 | after the cutover an unknown location reads no box and yields no rows |
| JsScraper.ScrapeVisitsForDate | src/scraper.js:110-178 | the method (waits, then nested `forEach`/`push`) yields exactly the page-read function's value |
| JsScraper.ReadAll | src/scraper.js:146-177 | waits for each container, failing on the first one missing, then reads them in order: exactly `ReadBoxes` |
| JsScraper.ReadBox | src/scraper.js:157-174 | the `push` loop over one box's `<li>` gives exactly the box's rows |
| JsScraper.CsvRows | src/scraper.js:227-228 | one line per visit, line `i` being visit `i`'s fields joined by commas |
| JsScraper.CsvLines | src/scraper.js:226-230 | if no field holds a newline, splitting the dump on newlines gives the header, then one line per row, or one empty line when there are no rows |
| JsScraper.DumpLines | src/scraper.js:226-230 | the same for any newline-free first line |
| JsScraper.LinesSplit | src/scraper.js:229-230 | a first line joined with newline-free lines splits back into them |
| JsScraper.CsvFields | src/scraper.js:228 | if no field holds a comma, splitting a CSV line on commas gives the five fields, with `''` for a missing status, doctor or type |
| JsSync.LastWithKey | src/scraper.js:213-218 | the last row of the batch with a key, or none when no row has it |
| JsSync.UpsertAllAt | src/scraper.js:213-218 | after a batch, a key the batch lacks is as before; a key it has holds its last row, with any reason already stored kept |
| JsSync.UpsertKeyed | src/scraper.js:214-218 | one upsert keeps every row under its own key |
| JsSync.UpsertAllKeyed | src/scraper.js:213-220 | a batch keeps every row under its own key, so no two rows share a key |
| JsSync.UpsertAllIdempotent | src/scraper.js:213-220 | upserting a batch twice equals upserting it once |
| JsSync.UpsertAllKeys | src/scraper.js:213-220 | the keys after a batch are the old keys plus the batch's keys |
| JsSync.UpsertAllKeepsDate | src/scraper.js:205 | a day found before a batch is still found after it |
| JsSync.UpsertAllAddsDate | src/scraper.js:205-218 | after a non-empty batch of one day's rows, that day is found |
| JsSync.JsStore.constructor | src/scraper.js:182 | the store starts with the given keyed collections |
| JsSync.JsStore.FindOneByDate | src/scraper.js:205 | `findOne({ date })` reports whether the collection holds a row of that day |
| JsSync.JsStore.UpdateOne | src/scraper.js:214-218 | one upsert replaces the collection with its upserted version and changes nothing else |
| JsSync.UpsertVisits | src/scraper.js:212-221 | the loop upserts the whole batch into the collection, and `count` equals the batch length |
| JsSync.RangeOf | src/scraper.js:199-202 | the days the date loop visits are valid |
| JsSync.RangeOfInRange | src/scraper.js:199-202 | every day the loop visits lies between the two ends |
| JsSync.SyncLocationsRange | src/scraper.js:181-235 | the final store, trace and error are exactly those of the sync function |
| JsSync.SyncDays | src/scraper.js:199-231 | the day loop ends in the store, trace and error of the day-loop function |
| JsSync.SyncDay | src/scraper.js:203-230 | one day (Sunday and `findOne` skips, `setDate`, read, upserts, CSV) ends as the single-day function says |
| JsSync.SyncRange | src/scraper.js:238-240 | `syncRange` is the sync of one location |
| JsSync.SyncVisits | src/scraper.js:241-243 | `syncVisits` is the sync of one location over a one-day range |
| JsSync.JsDaysFailed | src/scraper.js:181-235 | once a run has failed, the remaining days change nothing |
| JsSync.JsLocationsFailed | src/scraper.js:192-194 | once a run has failed, the remaining locations change nothing |
| JsSync.GrowsKeepsDate | src/scraper.js:205 | a day found in a collection is still found after the store grows |
| JsSync.JsDayGrows | src/scraper.js:211-221 | one day keeps every stored row and every key |
| JsSync.JsDaysGrows | src/scraper.js:202-231 | the day loop keeps every stored row and every key |
| JsSync.JsLocationsGrows | src/scraper.js:192-231 | the location loop keeps every stored row and every key |
| JsSync.JsSyncGrows | src/scraper.js:181-235 | a sync never loses a stored key and keeps every row under its own key |
| JsSync.JsDayTrace | src/scraper.js:202-230 | a day either changes nothing, or (on a weekday not stored) appends a date change, a read of that day and a CSV write |
| JsSync.JsDayInv | src/scraper.js:202-209 | one day keeps the run invariant: the store grows and every operation so far is allowed |
| JsSync.JsSyncOps | src/scraper.js:202-209 | every date set and page read is a Monday to Saturday in the range; every read is of a requested clinic on a day its collection lacked when the run began |
| JsSync.CoveredGrows | src/scraper.js:205 | a covered day stays covered as the store grows |
| JsSync.JsDayCovers | src/scraper.js:202-221 | a weekday that ends without error is covered: stored, or shown empty |
| JsSync.JsDaysCover | src/scraper.js:202-231 | after a day loop without error, every weekday of it is covered |
| JsSync.JsLocationsCover | src/scraper.js:192-231 | after a location loop without error, every weekday of the range is covered for every location |
| JsSync.JsSyncCovers | src/scraper.js:192-231 | after a run without error, every Monday to Saturday of the range is covered for every requested clinic |
| JsSync.ChangeOps | src/scraper.js:192-194 | one location change per location, in order |
| JsSync.JsLocationsStored | src/scraper.js:192-205 | over stored days, the location loop only records location changes |
| JsSync.JsDaysStored | src/scraper.js:203-206 | over days all stored, the day loop changes nothing |
| JsSync.JsSyncIdle | src/scraper.js:189-205 | re-running over a range whose weekdays are all stored leaves the store unchanged and ends without error, only logging in and changing clinic |
| PyScraper.PyLayout | src/scraperselenium.py:129-149 | the AM/PM container is used exactly when `date_str < '2025-05-31'` as strings |
| PyScraper.PyLayoutShape | src/scraperselenium.py:141-149 | after the cutoff the status map is keyed by exactly the distinct ids read; the first is a no-show box (`No-Show/Resched` only at Oak Lawn) and the rest exit boxes; three, two or no boxes |
| PyScraper.CutoffIsIso | src/scraperselenium.py:23 | `'2025-05-31'` is the ISO text of 2025-05-31 |
| PyScraper.PyLayoutByDay | src/scraperselenium.py:131 | for an ISO day, the legacy layout is used exactly for the days before 2025-05-31 |
| PyScraper.CutoffsDiffer | src/scraperselenium.py:23 | from 2025-05-22 to 2025-05-30 the JavaScript scraper reads the clinic boxes while the Python one still reads the AM/PM container |
| PyScraper.LayoutsAgree | src/scraperselenium.py:141-149 | after both cutoffs both scrapers read the same boxes in the same order, with the same labels except the two-box clinics' first box |
| PyScraper.TwoBoxLayoutsAgree | src/scraperselenium.py:144-147 | for the four two-box clinics: the same boxes and `Exit` labels, `No-Show/Resched` against `No-Show/Resced` |
| PyScraper.EntryParts | src/scraperselenium.py:155-156 | `strip().split()` gives tokens, and none exactly when the text is blank |
| PyScraper.Row | src/scraperselenium.py:155-176 | the row copies clinic and date; a non-blank entry's time is a token; the status is the box's label exactly when the box is in the map |
| PyScraper.ParsersAgree | src/scraperselenium.py:155-174 | on a non-blank entry, both parsers read the same time, patient, doctor, type, clinic and date |
| PyScraper.RowReads | src/scraperselenium.py:155-158 | text of a time token and name tokens separated by any blank runs, with any blanks around them, is not blank and reads as that time and the names joined by single spaces |
| PyScraper.NoBlankSnoc | src/scraperselenium.py:154-157 | a box has no blank entry exactly when its entries before the last have none and the last is not blank |
| PyScraper.RowsAt | src/scraperselenium.py:154-176 | row `i` of a box is its `i`-th entry read |
| PyScraper.RowsOf | src/scraperselenium.py:167-176 | every row of a box without blank entries carries the clinic, the day, a time token and a status from the map or none |
| PyScraper.IdsRowsAll | src/scraperselenium.py:151-153 | a property every successful box read has holds of every successful read of several boxes |
| PyScraper.IdsRowsSnoc | src/scraperselenium.py:151-153 | a successful read of `n` boxes is the read of `n - 1` boxes followed by box `n` |
| PyScraper.ReaderRows | src/scraperselenium.py:151-176 | the reader of a layout only yields rows of that layout |
| PyScraper.ExtractRows | src/scraperselenium.py:129-177 | every row of a successful read carries the clinic and day, a time token, and either no status or a no-show/exit label; before the cutoff none has a status |
| PyScraper.ExtractUnknownLocation | src/scraperselenium.py:149 | after the cutoff a location missing from `loc_map` reads nothing and yields no rows |
| PyScraper.LegacyReadsAgree | src/scraperselenium.py:131-139 | before both cutoffs, with the AM/PM container present and no blank entry, both scrapers succeed with rows that match one for one except the Python-only reason |
| PyScraper.PyLegacyRead | src/scraperselenium.py:131-139 | the Python legacy read is that container's rows |
| PyScraper.LegacyRowsAgree | src/scraperselenium.py:155-176 | with an empty status map the two parsers give the same rows up to `reason` |
| PyScraper.JsCutoffFirst | src/scraperselenium.py:23 | the JavaScript cutoff comes before the Python one |
| PyScraper.JsLegacyRead | src/scraper.js:114-125 | the JavaScript legacy read is the rows of the AM/PM container |
| PyScraper.ScrapeVisitsForDate | src/scraperselenium.py:129-177 | the nested loop with `append` yields exactly the page-read function's value |
| PyScraper.ReadBox | src/scraperselenium.py:152-176 | one box's loop fails at its first blank entry, otherwise gives exactly its rows |
| PyScraper.BlankStops | src/scraperselenium.py:157 | a box with a blank entry is not blank-free |
| PyScraper.RowsSnoc | src/scraperselenium.py:154-176 | reading one more non-blank entry appends its row |
| PyScraper.IdsRowsStop | src/scraperselenium.py:151-153 | once a read has failed, the later boxes change nothing |
| PyScraper.IdsRowsNext | src/scraperselenium.py:151-153 | after a successful read of `b` boxes, box `b + 1` is missing, fails, or has its rows appended |
| PyScraper.IdsRowsFail | src/scraperselenium.py:151-153 | a missing or failing box ends the whole read with that box's error |
| PyScraper.ReadContainers | src/scraperselenium.py:150-176 | the outer `for bid in boxes` loop yields exactly the read of all the boxes, stopping at the first failure |
| PyScraper.ReadNext | src/scraperselenium.py:151-176 | one turn of the outer loop either extends the rows read so far by the next box's rows or gives the error that ends the whole read |
| PyScraper.ReadContainer | src/scraperselenium.py:152-176 | `find_element(By.ID, bid)` fails when the box is missing; otherwise the result is the box's rows |
| PySync.PyStore.constructor | src/scraperselenium.py:25-26 | the store starts with the given collections |
| PySync.PyStore.DistinctDates | src/scraperselenium.py:202-203 | `distinct('date', {'date': d})` returns `[d]` exactly when some row has that date, otherwise nothing |
| PySync.PyStore.InsertMany | src/scraperselenium.py:211-212 | `insert_many` appends the non-empty batch to the named collection and changes nothing else |
| PySync.SyncLocationsRange | src/scraperselenium.py:181-215 | the final store, selected clinic, trace and error are exactly those of the sync function |
| PySync.SyncDays | src/scraperselenium.py:196-214 | the day loop ends as the day-loop function says |
| PySync.SyncDay | src/scraperselenium.py:197-214 | one day (Sunday and presence skips, `set_date`, read, `insert_many`) ends as the single-day function says |
| PySync.PyDaysStep | src/scraperselenium.py:196 | the day loop is the first day followed by the rest |
| PySync.ParseArgs | src/scraperselenium.py:218-231 | usage error with status 1 exactly when there are fewer than two arguments; otherwise the last two arguments are the range and the rest the clinics, all six when there are none |
| PySync.RunScript | src/scraperselenium.py:218-231 | a usage error exits 1 and writes nothing; otherwise the store is the sync of the parsed arguments |
| PySync.ParseTwoArgs | src/scraperselenium.py:222-224 | two arguments sync the six clinics over that range |
| PySync.ParseLongArgs | src/scraperselenium.py:226-227 | `*locs, sd, ed = args` keeps the clinics in order and the last two as the range |
| PySync.PyDaysFailed | src/scraperselenium.py:196-214 | once a run has failed, the remaining days change nothing |
| PySync.PyLocationsFailed | src/scraperselenium.py:192-214 | once a run has failed, the remaining locations change nothing |
| PySync.ExtendsKeepsPresent | src/scraperselenium.py:202-203 | a day present before is present after the store grows |
| PySync.PyDayExtends | src/scraperselenium.py:211-212 | one day only appends and keeps the selected clinic |
| PySync.PyDaysExtends | src/scraperselenium.py:196-214 | the day loop only appends and keeps the selected clinic |
| PySync.PySyncExtends | src/scraperselenium.py:181-215 | a sync never changes or removes a stored row: every collection before is a prefix of the same collection after |
| PySync.PyDayTrace | src/scraperselenium.py:197-210 | a day either adds nothing, or (on a day not stored) appends a date change and possibly a read |
| PySync.PyDayInv | src/scraperselenium.py:197-210 | one day keeps the run invariant |
| PySync.PySyncOps | src/scraperselenium.py:196-210 | every date set and page read is a Monday to Saturday in the range; every read is of a requested clinic on a day its collection lacked when the run began |
| PySync.CoveredExtends | src/scraperselenium.py:202-203 | a covered day stays covered as the store grows |
| PySync.PyDayCovers | src/scraperselenium.py:197-214 | a weekday that ends without error, with the requested clinic selected, is covered: present, or no slots or rows |
| PySync.PyDaysCover | src/scraperselenium.py:196-214 | after a day loop without error, with the clinic selected, every weekday of it is covered |
| PySync.PySyncCovers | src/scraperselenium.py:192-214 | after a run without error over offered clinics, every Monday to Saturday of the range is covered for every requested clinic |
| PySync.StaleClinic | src/scraperselenium.py:86-100 | a clinic the dropdown lacks leaves the old clinic selected, where the JavaScript sync stops with `LocationNotFound` |
| PySync.ChangeOps | src/scraperselenium.py:192-193 | one location change per location, in order |
| PySync.PyDaysStored | src/scraperselenium.py:200-205 | over days all present, the day loop changes nothing |
| PySync.PyLocationStored | src/scraperselenium.py:192-205 | over present days, a location only adds its change-location operation |
| PySync.PySyncIdle | src/scraperselenium.py:191-205 | re-running over a range whose weekdays are all present writes nothing and ends without error, only logging in and changing clinic |
| PySync.DuplicatesKept | src/scraperselenium.py:211-212 | a row scraped twice is stored twice by `insert_many` but once by the JavaScript upsert |
| Api.Locations | src/index.js:149-153 | never empty; the six clinics exactly when `location` is missing or `'All'`; otherwise just the given name |
| Api.Filter | src/index.js:170 | every kept row is accepted, and each accepted row is kept as often as it occurs in the input |
| Api.FilterSnoc | src/index.js:170 | order is kept: a further row is appended to the kept rows exactly when it is accepted |
| Api.FilterOne | src/index.js:170 | a single row is kept exactly when it is accepted |
| Api.DateFilterIso | src/index.js:141-143 | on ISO dates, `start <= date <= end` as strings is the inclusive range of days |
| Api.ExitStatusesAgree | src/index.js:156-168 | a clinic's counted statuses are exactly the labels the JavaScript scraper gives its exit boxes after the cutover, in order |
| Api.TwoBoxExit | src/index.js:159-162 | the two-box clinics count the single label `Exit` |
| Api.BumpSpec | src/index.js:171 | one more row of a doctor raises that doctor's count by one (from 0 when absent), keeps the others, keeps the tallies distinct and raises the sum by one |
| Api.GroupSpec | src/index.js:171 | `$group` by doctor gives one tally per doctor with rows, holding that doctor's row count, summing to the number of rows |
| Api.GroupCounts | src/index.js:171 | every group is a doctor with a positive row count equal to that doctor's rows; the groups are distinct and sum to the number of rows |
| Api.GroupCovers | src/index.js:171 | every row's doctor has a group |
| Api.LookupIn | src/index.js:171 | in distinct tallies, looking a tally's doctor up gives its count |
| Api.InsertSpec | src/index.js:172 | inserting into a sorted tally list keeps it sorted and adds exactly that tally and its count |
| Api.InsertSorted | src/index.js:172 | inserting into a list sorted by non-increasing count keeps it sorted |
| Api.InsertMultiset | src/index.js:172 | inserting adds exactly the one tally |
| Api.InsertSum | src/index.js:172 | inserting adds the tally's count to the sum |
| Api.SortSpec | src/index.js:172 | `$sort: { count: -1 }` gives a permutation sorted by non-increasing count, with the same sum |
| Api.SortSorted | src/index.js:172 | the sorted list has non-increasing counts |
| Api.SortMultiset | src/index.js:172 | sorting is a permutation |
| Api.SortSum | src/index.js:172 | sorting keeps the sum of counts |
| Api.PermutedDistinct | src/index.js:171-172 | reordering keeps the tallies distinct |
| Api.DistinctOnce | src/index.js:171-172 | each tally of a distinct list occurs exactly once in it |
| Api.RankingSpec | src/index.js:169-177 | the ranking lists each doctor with rows once, with their row count, highest first, summing to the number of rows |
| Api.Leaderboard | src/index.js:147-185 | 400 `startDate & endDate required` exactly when either is missing; otherwise one board per expanded location, in order, each the ranking of its clinic's counted rows |
| Api.LeaderboardSpec | src/index.js:156-178 | a board counts only in-range rows with an exit status of the clinic, sorted and grouped; a location without exit statuses has an empty board |
| Api.ExitRowsKept | src/index.js:170 | every counted row is in range and has one of the statuses |
| Api.NoStatusesNoRows | src/index.js:168-170 | with no statuses nothing is counted |
| Api.KpisFor | src/index.js:189-220 | 400 exactly when a date is missing; otherwise, per expanded location, `patientsSeen` is the number of in-range rows and `perDoctor` their ranking |
| Api.KpisOver | src/index.js:198-214 | the loop pushes one `byLocation` and one `byDoctor` element per location, holding count and ranking |
| Api.KpisAgree | src/index.js:202-212 | per clinic, the per-doctor counts sum to `patientsSeen`, are sorted, and are each doctor's in-range row count |
| Api.MonthWindow | src/index.js:243-256 | on ISO dates the month window `[Y-M-01, next month's 01)` holds exactly that month's days, December rolling into January |
| Api.MonthRowsCalendar | src/index.js:252-258 | for rows with ISO dates, the window keeps exactly the rows of that calendar month |
| Api.PrefixAt | src/index.js:242-262 | the month loop's results have one entry per month, entry `m` being month `m`'s value |
| Api.MonthTotalsAt | src/index.js:240-263 | `countFor` has `currentMonth + 1` entries, entry `m` being month `m`'s total over the queried clinics |
| Api.MonthTotalsSnoc | src/index.js:261 | each turn of the month loop appends that month's total |
| Api.CountFor | src/index.js:240-264 | the month loop returns exactly the month totals from January to `currentMonth` |
| Api.MonthSum | src/index.js:249-260 | `monthTotal` is the sum of the clinics' window counts |
| Api.CompareYears | src/index.js:224-276 | 400 `location is required` exactly when the location is missing; otherwise `months` is the first `currentMonth + 1` names, and `thisYear`/`lastYear` are the month totals of this year and last year over the expanded clinics |
| Api.CompareLocations | src/index.js:238-276 | the comparison body holds the label, the month names, and both years' month totals |

## Left out

- Browser automation is abstracted into the `Portal` value. Not modelled:
  - login steps and their buttons;
  - the Kendo drop-down and date-picker scripts;
  - the selector waits and timeouts;
  - delays;
  - browser launch and teardown.

  What is kept:
  - whether login succeeds;
  - the clinics the drop-down offers and `changeLocation`'s throw for any other;
  - the page shown for a clinic and day (none when the date navigation never completes).
- MongoDB is replaced by in-memory maps:
  - JavaScript: clinic → natural key → row;
  - Python: clinic → row sequence;
  - the server: clinic → row sequence.

  Connections, indexes, `_id` values and the storage order of upserted
  documents are not modelled.
- The two scripts' stores are modelled separately. The JavaScript store is
  keyed, with one row per natural key from the start (`JsSync.JsStore.constructor`).
  Not modelled: a JavaScript sync over a collection where the Python
  `insert_many` left several rows with one key, where `updateOne` would
  update only one of them.
- File-system effects are left out: `mkdirSync` and `writeFileSync` appear
  only as a `WriteCsv(path, text)` operation carrying the exact text.
- Logging (`console.log`, `print`) is left out.
- JavaScript `Date` and time zones are not modelled:
  - The date loop is modelled as the civil days between the two parsed ends,
    with Sunday per `getUTCDay()`. The local/UTC mixing of `new Date`,
    `setDate` and `toISOString` is not modelled.
  - The comparison windows are modelled as the civil first day of each month
    and the next.
  - `new Date()` "today" becomes the parameters `thisYear` and `currentMonth`.
- Concurrency is not modelled: the `Promise.all` of the comparison endpoint
  is a sequential sum and two sequential `countFor` calls.
- Express wiring, CORS, JSON middleware, the 500 replies for thrown errors,
  and `req.query` values that are arrays are left out.
- Whitespace is space, tab, newline, carriage return, vertical tab and form
  feed only. Not modelled: the Unicode blanks that `\s`, `trim()` and
  `str.split()` also accept, and the ASCII separators U+001C to U+001F,
  which Python's `strip()` and `split()` treat as blanks and JavaScript does
  not.
- The status of an entry is looked up by the id of the box selector
  (`#boxNN`). The page script looks it up by the id of the `<li>`'s closest
  droptarget `<ul>` (`src/scraper.js:164`). The two agree when each `#boxNN`
  is itself the droptarget list and holds no nested droptarget; the model
  assumes this page structure.
- Api.SortDesc: `$sort: { count: -1 }` leaves the order of equal counts
  unspecified. The model fixes one order (stable insertion by count), so the
  order among ties in `Api.Leaderboard`, `Api.KpisFor` and `Api.RankingSpec`
  is one that MongoDB may produce, not the only one.
- `STATUS_MAP[loc]` and `mapping[location]` for names of `Object.prototype`
  properties are not modelled.
- Dates.ParseIso: models `datetime.fromisoformat` and `new Date(str)` only
  on plain `YYYY-MM-DD` text. It does not model the other forms they accept
  (times, offsets, other layouts). Other text fails to parse.
- JsSync.RangeOf: a date that does not parse as a valid `YYYY-MM-DD` day
  gives no days. JavaScript's `new Date` may instead roll an impossible day
  such as `2025-02-30` over into the next month; that roll-over is not
  modelled.
- Dates.Valid: years are limited to 1..9999 (Python `date`, four-digit
  `%Y`). The date loop's step past 9999-12-31 is not modelled.
- Api.CompareYears: requires `2 <= thisYear <= 9998`, so that both
  compared years and the December roll-over stay four-digit ISO years. Other
  years are not modelled.
- PyScraper.Row: a blank entry is given an empty time and patient so that the
  function is total. The page read (`PyScraper.BoxRows`) never uses this
  value: it stops with `EmptyEntry` where Python raises `IndexError`.
- The frontend (`frontend/App.js`) and the commented-out first server are
  not part of this model.
- `src/models/Visit.js` is only a schema. Its fields are the `Visit`
  datatype.
