# INSPIRE contact-details scraper: a Dafny model

The INSPIRE scraper drives an ASP.NET WebForms page. It needs five
requests to get to the contact details of a school:

- a `GET` of the page, which yields the hidden inputs `__VIEWSTATE`,
  `__EVENTVALIDATION` and `__VIEWSTATEGENERATOR`;
- an AJAX post choosing "school details";
- an AJAX post choosing the state, which lists its districts;
- an AJAX post choosing a district, which lists its schools;
- an AJAX post submitting a school, which shows its contact table.

A run makes the first three once, then one post per district and one per
school. Each AJAX reply is a "delta" text with records of the form
`|<len>|hiddenField|<NAME>|<value>`. After the mode, state and district
posts, the scraper replaces its three session tokens with the values found
there, and the state and district posts then read the next dropdown
(districts, then schools). The school submission only reads the contact
table and leaves the tokens as they were. The Flask front end runs
one scrape at a time, in a background thread. That thread walks the selected
districts of one state, writes one CSV per district that produced data, and
zips the files when there is more than one. A stop request is honoured
before the next district or school.

The model is pure and functional. Its modules follow the program:

| module | file | what it models |
|---|---|---|
| `Wrappers` | wrappers.dfy | `Option` |
| `Text` | text.dfy | `str.strip`, `str.replace` of one character, clamped slices, decimal digits |
| `Dicts` | dicts.dfy | Python's insertion-ordered `dict` as an association list: lookup, assignment, filtering |
| `Delta` | delta.dfy | `parse_delta`: the leftmost `hiddenField` record for a name and its clamped value |
| `Markup` | markup.dfy | the parsed-HTML views the scraper reads: hidden inputs, dropdown options, contact rows |
| `Engine` | engine.dfy | `InspireScraper`: session tokens, the four form payloads and the six steps |
| `App` | app.dfy | the start/stop handlers, name sanitising and the `run_scraper` driver |

Some parts of the program are parameters of the model:

- HTTP is a parameter. A step receives `send: Request -> Option<Response>`,
  where `None` is a failed request. The driver receives
  `net(n, request)`, the server's answer to its `n`-th request.
- The stop flag, set by another thread, is a parameter `stopAt`. The flag
  reads "down" at its first `stopAt` checks and "up" from then on.
- The `STATES` table is a parameter `states`.

## Model

| member | source | states |
|---|---|---|
| Text.Strip | scraper_backend.py:112 | the stripped label has no surrounding whitespace, is no longer than the text, and is empty exactly when the text is all whitespace |
| Text.StripMeaning | scraper_backend.py:112 | the result is the text with its maximal leading and trailing whitespace runs removed |
| Text.StripIdempotent | scraper_backend.py:112 | stripping a stripped text changes nothing |
| Text.ReplaceChar | app.py:147 | every occurrence of the character becomes the replacement, every other character stays, and the replaced character no longer occurs |
| Text.Slice | scraper_backend.py:90 | Python's `text[a:b]`: bounds are clamped to the text, and the result is empty when they cross |
| Text.DecimalRoundTrip | scraper_backend.py:85-88 | reading back the decimal rendering of a length gives the length, so `(\d+)` can carry any length |
| Dicts.Put | scraper_backend.py:114 | assigning a key keeps its position when present and appends it otherwise; the key maps to the new value, all other keys are unchanged, and keys stay unique |
| Dicts.FilterKeys | app.py:144 | the comprehension keeps exactly the entries whose key is selected, and never more entries than the map has |
| Dicts.FilterKeysAppend | app.py:144 | filtering goes entry by entry in map order: filtering a concatenation is the concatenation of the filtered parts |
| Dicts.FilterKeysGet | app.py:144 | a selected key looks up as in the whole map; any other key is absent |
| Dicts.FilterKeysUnique | app.py:144 | the filtered map of a map with unique keys has unique keys |
| Delta.FindMarker | scraper_backend.py:86 | `re.search` finds the leftmost position where the record pattern matches, or reports that none does |
| Delta.MarkerAtIsMatch | scraper_backend.py:85 | the marker reader succeeds exactly where the pattern `\|(\d+)\|hiddenField\|NAME\|` matches, and it takes the whole digit run |
| Delta.ExtractField | scraper_backend.py:84-92 | the value is the slice after the leftmost match, clamped to the text, with the matched length; it is `""` when there is no match |
| Delta.DecodesUnique | scraper_backend.py:84-92 | a text decodes to at most one value per name |
| Delta.ParseDelta | scraper_backend.py:94-98 | the three tokens are the values the text decodes to for `__VIEWSTATE`, `__EVENTVALIDATION` and `__VIEWSTATEGENERATOR` |
| Delta.RecordMarker | scraper_backend.py:85-90 | a record written after any text matches right where it starts, declaring the length of its value, and the value follows the match |
| Delta.ExtractRecord | scraper_backend.py:84-92 | round trip: a record written as `\|len\|hiddenField\|NAME\|value` with no earlier record for NAME is read back as exactly that value |
| Delta.ViewStateSkipsGenerator | scraper_backend.py:95-97 | the pattern for `__VIEWSTATE` never matches a `__VIEWSTATEGENERATOR` record, so the two names never read each other's value |
| Markup.FindFirst | scraper_backend.py:104 | `find` returns the first element that matches, or reports that none does; the input, `select` and table lookups are this search |
| Markup.ExtractViewstateFromHtml | scraper_backend.py:119-127 | succeeds exactly when each of the three named inputs exists with a `value`, and then returns those values |
| Markup.ViewstateFromHiddenInputs | scraper_backend.py:119-125 | a page whose first inputs are the three hidden fields yields exactly their values |
| Markup.DropdownOptions | scraper_backend.py:109-116 | keys are unique, never empty or `"0"`, and labels are non-empty and stripped |
| Markup.DropdownOptionsMeaning | scraper_backend.py:110-114 | a key is listed exactly when some kept option carries it, and its label is the one of the last such option (later duplicates overwrite) |
| Markup.KeptValuesMember | scraper_backend.py:110-114 | a value occurs among the kept options' values exactly when some kept option carries it |
| Markup.DropdownKeyOrder | scraper_backend.py:109-114 | the map's keys are the kept options' values in order of first occurrence, since assigning an existing key keeps its place |
| Markup.ExtractDropdownFromDelta | scraper_backend.py:101-116 | a missing dropdown gives the empty map; otherwise the map of its kept options |
| Markup.PlaceholderDropped | scraper_backend.py:113 | the `"0"` placeholder option is not listed |
| Markup.StripCells | scraper_backend.py:296 | each cell's text is stripped, and the cell count is kept |
| Markup.RowContactFields | scraper_backend.py:298-310 | a row gives a contact exactly when it has at least six cells and the name, mobile or email cell is non-empty after stripping; the contact carries the given state and district and the stripped cells 1 to 5 in order |
| Markup.RowsContactsAppend | scraper_backend.py:295-310 | the rows are processed independently and in order: the contacts of a concatenation are the concatenation of the contacts |
| Markup.RowsContactsMembership | scraper_backend.py:295-310 | a contact is returned exactly when some row gives it |
| Markup.RowsContactsBelong | scraper_backend.py:298-310 | every contact carries the state and district it was read for and a non-empty name, mobile or email |
| Markup.TableContacts | scraper_backend.py:293-312 | the header row is skipped, and every contact of the table belongs to the state and district and has a way to reach someone |
| Markup.BlankContactRowDropped | scraper_backend.py:296-310 | a row whose name, mobile and email cells are blank is dropped, whatever its other cells hold |
| Markup.MobileOnlyRowKept | scraper_backend.py:296-310 | a row whose only contact is a mobile number is kept, with school, mobile and application number in their places |
| Engine.FieldNamesDistinct | scraper_backend.py:178-186 | the payload field names are pairwise distinct, so no two payload keys collide on the wire |
| Engine.ModeFormFacts | scraper_backend.py:178-186 | the mode payload carries the current tokens, `__ASYNCPOST=true`, mode `2`, an empty argument and the radio list as event target, and no selection |
| Engine.StateFormFacts | scraper_backend.py:203-212 | the state payload carries the session, the state list as event target, and the state id |
| Engine.DistrictFormFacts | scraper_backend.py:231-241 | the district payload carries the session, the district list as event target, the state id and the district id |
| Engine.SubmitFormFacts | scraper_backend.py:268-279 | the submit payload carries the session, the submit button as event target, and the state, district and school ids |
| Engine.FormsUnique | scraper_backend.py:178-279 | no payload names a field twice |
| Engine.FormsCumulative | scraper_backend.py:178-279 | each payload's fields are the previous step's fields, in order, followed by the new selection |
| Engine.EncodeGet | scraper_backend.py:178-279 | the value posted under a field's wire name is that field's value |
| Engine.InitializePage | scraper_backend.py:163-174 | succeeds exactly when the page loads and has all three hidden inputs; then the tokens are their values and the records are untouched; on failure nothing changes |
| Engine.SelectSchoolMode | scraper_backend.py:176-199 | succeeds exactly when the post gets a reply; then the tokens become the reply delta's; on failure nothing changes |
| Engine.SelectStateFacts | scraper_backend.py:201-227 | a map exactly when the post gets a reply; then the tokens become the delta's and the map is the one read from the reply's district dropdown: its keys are the kept options' values in order of first occurrence, each labelled by the last option carrying it, and a missing dropdown gives the empty map; on failure nothing changes |
| Engine.SelectDistrictFacts | scraper_backend.py:229-256 | as `SelectStateFacts`, for the school dropdown and the district payload |
| Engine.DropdownListed | scraper_backend.py:224-225 | a step's map has unique keys, in the order of the dropdown's kept options, and lists a key exactly when the dropdown has a kept option for it, labelled as the last one |
| Engine.SessionForwarded | scraper_backend.py:218-241 | the district payload after `select_state` carries the tokens decoded from the state reply, or the earlier tokens when the state request failed |
| Engine.ScrapeSchoolContactsReturn | scraper_backend.py:265-316 | a failed request or a missing table gives no contacts; otherwise the table's contacts; every contact has the given state and district and a name, mobile or email |
| Engine.ScrapeSchoolContacts | scraper_backend.py:258-263 | the contacts are appended to the records, the count returned is the number appended, and the tokens are unchanged |
| App.StartScraping | app.py:271-311 | accepted exactly when no run is active and a state id and some districts are given; a rejection changes nothing; acceptance resets the status to running, not stopping, zero records, no error and no output |
| App.StopScraping | app.py:320-328 | the stop flag is raised exactly when a run is active (or it was already up); nothing else changes |
| App.StopFlagSticky | app.py:276-277 | while a run is active neither handler can lower a raised stop flag |
| App.StopIdempotent | app.py:320-328 | a second stop request changes nothing |
| App.StateLabel | app.py:131 | a known id gives its name; an unknown id gives `State_<id>` |
| App.FolderName | app.py:147 | spaces become underscores and nothing else changes |
| App.CsvStem | app.py:192 | spaces and slashes become underscores and nothing else changes |
| App.SanitiseIdempotent | app.py:147 | sanitising a sanitised name changes nothing |
| App.FilterDistricts | app.py:141-144 | `"all"` keeps every district; otherwise the result is the dict comprehension over the district map, so it keeps exactly the selected districts, in map order |
| App.ChooseOutput | app.py:198-204 | no file keeps the previous output, one file is the output itself, several give the `<state>_Data` archive |
| App.CsvFilesMeaning | app.py:188-194 | a CSV is written exactly for each entered district that produced data, named after it |
| App.Prepare | app.py:121-138 | requests 0, 1 and 2 are `initialize_page`, `select_school_mode` and `select_state`, each on the scraper the one before left; a failed page load or mode post ends the run with its message; after both succeed the run fails exactly when `select_state` gives no map or an empty one, with the message naming the state; otherwise the district map and the scraper are the ones `select_state` returned, and the map is non-empty with unique keys |
| App.ScrapeSchools | app.py:169-186 | the schools submitted are the first ones of the map, in order, each giving what `scrape_school_contacts_return` gives for it; the loop stops only at the map's end or at the first check that sees the flag up |
| App.ScrapeStep | app.py:169-186 | submitting the next school of the map keeps the loop's promises: submissions follow the map, each holds what `scrape_school_contacts_return` gives as its request, and every record belongs to the state and district |
| App.VisitDistrict | app.py:154-186 | a district without schools is skipped; otherwise its schools are submitted with the tokens `select_district` left; its records belong to the state and district |
| App.VisitDistricts | app.py:153-195 | districts are entered in list order; each district's school map is what `select_district` answered as the request after the earlier districts' requests, with the tokens they left, and its schools were submitted from the next request on with the tokens it left; every district entered before the last one was finished, and the last one too unless the stop flag came up; the record count is the number of contacts; one CSV per district with data |
| App.ScraperAfterSnoc | app.py:154-162 | the scraper after one more district is the one that district's `select_district` leaves, taken from the scraper after the earlier districts and as the request after theirs |
| App.VisitsBySnoc | app.py:154-186 | a visit that answers its district's `select_district`, taken with the scraper and request number the earlier visits left, extends a run's link to the server by one district |
| App.DistrictVisitStep | app.py:154-186 | one pass of the district loop keeps the loop's link to the server: the scraper it leaves is the one the next district starts from |
| App.RunScraper | app.py:105-217 | the run always ends not running; a stop flag already up when the run starts is seen at the first check, so no district is entered, and a run that the flag cut short ends with the flag up; every district entered before the last one was finished, and the run either finished every district or stopped exactly when the flag came up; with no stop request the flag stays down; an opening failure leaves no districts, records or files and records that step's message; otherwise the districts visited are the filtered map of `select_state`'s answer, each listed and scraped from the server's answers in request order from request 3 on, starting with the scraper the opening left; the output is chosen from the CSVs written and the folder is the sanitised state name |

## Left out

- HTTP transport: sessions, headers, timeouts, retries with back-off and the rate-limit sleep of `make_request` are replaced by the `send`/`net` oracles, where `None` stands for any failed request.
- HTML parsing is left out. BeautifulSoup's tree is given as a `Page`: hidden inputs, `select`s with their options, and tables as rows of cell texts. `option.get("value", "")` becomes `Option<string>` with `""` as the default.
- Most exception handlers are left out. The `try/except` blocks in the steps and in `run_scraper` catch failures of the parser, the file system or pandas, which the model does not have, and the one failure of `parse_delta` described under `Delta.ExtractField` below.
- Delta.ExtractField: reads a length of any number of digits. From Python 3.11 on, `int()` (scraper_backend.py:88) raises `ValueError` for a digit group of more than 4300 digits, unless the limit is changed with `sys.set_int_max_str_digits`. The select steps catch it (scraper_backend.py:198, 226, 255) and return `False` or `None` before any token is assigned. The model does not have that failure, because the limit depends on the interpreter version and its settings, and no length the server writes comes near it.
- File I/O is left out: `mkdir`, writing the CSVs with pandas and building the zip. The model records which files would be written and under which names.
- `str(Path)` and `with_suffix('.zip')` rendering, and the `Config.OUTPUT_DIR` prefix (`output/`): the state folder (app.py:147, 206) is `Some(FolderName(<state>))`, each CSV (app.py:192) is `CsvFile(<folder>, <stem>)`, and the archive (app.py:202-204) is `ZipArchive(<state>_Data)`, none of them as a path string under the output directory.
- Logging, the Flask routes other than start and stop, threads, the `message`, `current_*`, `total_available` and `progress` fields of the status, and `save_data_to_file`/`cleanup` are left out.
- `get_districts` (the districts endpoint) reuses the modelled steps and adds only JSON responses, so it is left out.
- JSON request decoding is left out: `state_id` is `Option<string>` (missing or empty is rejected) and `districts` is a list of ids.
- Regex `\d` matches any Unicode decimal digit in Python 3. The model accepts ASCII `0`-`9` only, which covers every length the server writes.
- App.StartScraping: the reset status has no `output_folder` key in the source; the model represents a missing key as `None`.
- App.RunScraper: the status's stop flag is set from the checks the run made. A stop request that arrives after the last check leaves it down in the model, while the source would show it up; the model has no clock to place such a request.
- App.RunScraper: the record count is stated for the end of the run. The intermediate values that `update_records` publishes school by school are not modelled.
- Engine: there is no atomic token replacement and no guard on the order of steps. The code assigns the three tokens one after another and never checks which step came before, and the model does the same.
