/**
 * The web front end's control logic: the shared status record, the start
 * and stop handlers that guard it, the names of the files a run writes, and
 * `run_scraper`, the sequential driver that walks state, districts and
 * schools. File writing, logging, threads and HTTP routing are not modelled:
 * a run's outcome is the status it leaves and the files it decides to write.
 */
module App {
  import opened Wrappers
  import opened Text
  import opened Dicts
  import opened Delta
  import opened Markup
  import opened Engine

  /** A file a run reports: one district's CSV in the state folder, or the archive of the folder. */
  datatype OutputFile = CsvFile(folder: string, stem: string) | ZipArchive(base: string)

  /** The fields of the shared status dict that the control logic reads or writes. */
  datatype Status = Status(
    isRunning: bool,
    shouldStop: bool,
    totalRecords: nat,
    error: Option<string>,
    outputFile: Option<OutputFile>,
    outputFolder: Option<string>)

  /** The status before any run. */
  const Idle: Status := Status(false, false, 0, None, None, None)

  // ---------------------------------------------------------------------
  // Start and stop handlers

  /** The answer of a handler: accepted, or rejected with a message. */
  datatype Reply = Accepted | Rejected(message: string)

  /**
   * `start_scraping`: rejected while a run is in progress, without a state
   * id (absent or empty), or with an empty district selection; otherwise
   * the status is replaced by a fresh running one.
   */
  function StartScraping(st: Status, stateId: Option<string>, districts: seq<string>): (r: (Status, Reply))
    ensures r.1.Accepted? <==> !st.isRunning && stateId.Some? && stateId.value != "" && districts != []
    ensures r.1.Rejected? ==> r.0 == st
    ensures r.1.Accepted? ==> r.0.isRunning && !r.0.shouldStop && r.0.totalRecords == 0
    ensures r.1.Accepted? ==> r.0.error.None? && r.0.outputFile.None? && r.0.outputFolder.None?
  {
    if st.isRunning then (st, Rejected("Scraper is already running"))
    else if stateId.None? || stateId.value == "" then (st, Rejected("No state selected"))
    else if districts == [] then (st, Rejected("No districts selected"))
    else (Status(true, false, 0, None, None, None), Accepted)
  }

  /** `stop_scraping`: raises the stop flag of a running scrape, and does nothing otherwise. */
  function StopScraping(st: Status): (r: Status)
    ensures r.shouldStop <==> st.shouldStop || st.isRunning
    ensures r == st.(shouldStop := r.shouldStop)
  {
    if st.isRunning then st.(shouldStop := true) else st
  }

  /**
   * While a run is in progress no handler lowers the stop flag: a second
   * start is refused and a stop only raises it. So once the running driver
   * sees the flag up it stays up for the rest of the run.
   */
  lemma StopFlagSticky(st: Status, stateId: Option<string>, districts: seq<string>)
    requires st.isRunning && st.shouldStop
    ensures StartScraping(st, stateId, districts).0.shouldStop
    ensures StopScraping(st).shouldStop
    ensures StartScraping(st, stateId, districts).1.Rejected?
  {
  }

  /** Stopping twice is stopping once. */
  lemma StopIdempotent(st: Status)
    ensures StopScraping(StopScraping(st)) == StopScraping(st)
  {
  }

  // ---------------------------------------------------------------------
  // Names

  /** `STATES.get(state_id, f"State_{state_id}")`, over the given table. */
  function StateLabel(states: map<string, string>, stateId: string): (r: string)
    ensures stateId in states ==> r == states[stateId]
    ensures stateId !in states ==> |r| == 6 + |stateId| && r[..6] == "State_" && r[6..] == stateId
  {
    if stateId in states then states[stateId] else "State_" + stateId
  }

  /** The state folder's name: the state label with spaces turned into underscores. */
  function FolderName(stateName: string): (r: string)
    ensures |r| == |stateName| && ' ' !in r
    ensures forall i :: 0 <= i < |r| ==> r[i] == if stateName[i] == ' ' then '_' else stateName[i]
  {
    ReplaceChar(stateName, ' ', '_')
  }

  /** A district CSV's name (before `.csv`): spaces, then slashes, turned into underscores. */
  function CsvStem(distName: string): (r: string)
    ensures |r| == |distName| && ' ' !in r && '/' !in r
    ensures forall i :: 0 <= i < |r| ==>
              r[i] == if distName[i] == ' ' || distName[i] == '/' then '_' else distName[i]
  {
    ReplaceChar(ReplaceChar(distName, ' ', '_'), '/', '_')
  }

  /** Sanitising a name already sanitised changes nothing. */
  lemma SanitiseIdempotent(stateName: string, distName: string)
    ensures FolderName(FolderName(stateName)) == FolderName(stateName)
    ensures CsvStem(CsvStem(distName)) == CsvStem(distName)
  {
    var f := FolderName(stateName);
    assert forall i :: 0 <= i < |f| ==> f[i] != ' ';
    var c := CsvStem(distName);
    assert forall i :: 0 <= i < |c| ==> c[i] != ' ' && c[i] != '/';
  }

  // ---------------------------------------------------------------------
  // District filter and output choice

  /**
   * The districts a run processes: all fetched ones when the selection
   * contains `"all"`, otherwise those whose id was selected, in fetched
   * order, with their names.
   */
  function FilterDistricts(all: Dict, selected: seq<string>): (r: Dict)
    ensures "all" in selected ==> r == all
    ensures "all" !in selected ==> r == FilterKeys(all, selected)
    ensures "all" !in selected ==> forall e :: e in r <==> e in all && e.0 in selected
    ensures |r| <= |all|
    ensures UniqueKeys(all) ==> UniqueKeys(r)
  {
    if "all" in selected then all
    else
      assert UniqueKeys(all) ==> UniqueKeys(FilterKeys(all, selected)) by {
        if UniqueKeys(all) {
          FilterKeysUnique(all, selected);
        }
      }
      FilterKeys(all, selected)
  }

  /**
   * What the run reports for download: the only file, the state archive
   * when there are several, and the previous value when there is none.
   */
  function ChooseOutput(files: seq<OutputFile>, stateName: string, previous: Option<OutputFile>): (r: Option<OutputFile>)
    ensures |files| == 0 ==> r == previous
    ensures |files| == 1 ==> r == Some(files[0])
    ensures |files| > 1 ==> r == Some(ZipArchive(stateName + "_Data"))
  {
    if |files| == 1 then Some(files[0])
    else if |files| > 1 then Some(ZipArchive(stateName + "_Data"))
    else previous
  }

  // ---------------------------------------------------------------------
  // The run

  /** One school submitted: its id and name, and the contacts it gave. */
  datatype Scrape = Scrape(schoolId: string, schoolName: string, contacts: seq<Contact>)

  /**
   * One district entered: its id and name, the school map `select_district`
   * returned, and the schools submitted from it, in order.
   */
  datatype Visit = Visit(distId: string, distName: string, schools: Option<Dict>, scraped: seq<Scrape>)

  /** The district's accumulated data: the contacts of its schools, in order. */
  function Data(scraped: seq<Scrape>): (r: seq<Contact>)
    ensures |scraped| == 0 ==> r == []
  {
    if |scraped| == 0 then [] else Data(scraped[..|scraped| - 1]) + scraped[|scraped| - 1].contacts
  }

  /** The number of records of a run: all contacts returned, over all districts. */
  function Total(visits: seq<Visit>): nat {
    if |visits| == 0 then 0 else Total(visits[..|visits| - 1]) + |Data(visits[|visits| - 1].scraped)|
  }

  /** The stop-flag reads that saw it down: one per district entered and one per school submitted. */
  function Work(visits: seq<Visit>): nat {
    if |visits| == 0 then 0 else Work(visits[..|visits| - 1]) + 1 + |visits[|visits| - 1].scraped|
  }

  /** The CSV files a run writes: one per district with data, in district order. */
  function CsvFiles(visits: seq<Visit>, folder: string): seq<OutputFile> {
    if |visits| == 0 then []
    else
      var v := visits[|visits| - 1];
      CsvFiles(visits[..|visits| - 1], folder) + if Data(v.scraped) == [] then [] else [CsvFile(folder, CsvStem(v.distName))]
  }

  /** A district without schools (`None` or an empty map) is skipped. */
  predicate Skipped(v: Visit) {
    v.schools.None? || v.schools.value == []
  }

  /**
   * The schools submitted from a district are the first ones of its school
   * map, in map order; a skipped district has none.
   */
  predicate WellFormedVisit(v: Visit) {
    && (Skipped(v) ==> v.scraped == [])
    && (v.schools.Some? ==> ScrapesFollow(v.scraped, v.schools.value))
  }

  /** The schools submitted are the first ones of the map, in order, with their names. */
  predicate ScrapesFollow(scraped: seq<Scrape>, schools: Dict) {
    |scraped| <= |schools| &&
    forall j :: 0 <= j < |scraped| ==> scraped[j].schoolId == schools[j].0 && scraped[j].schoolName == schools[j].1
  }

  /**
   * What `scrape_school_contacts_return` gives for a school submitted as
   * request `n0 + k`, with the scraper's tokens.
   */
  function SchoolReader(s: Scraper, stateId: string, stateName: string, distId: string, distName: string,
                        net: (nat, Request) -> Option<Response>, n0: nat): (string, nat) -> seq<Contact>
  {
    (schoolId: string, k: nat) => SchoolContacts(s, stateId, stateName, distId, distName, net, n0 + k, schoolId)
  }

  /** What `scrape_school_contacts_return` gives for a school submitted as request `n`. */
  function SchoolContacts(s: Scraper, stateId: string, stateName: string, distId: string, distName: string,
                          net: (nat, Request) -> Option<Response>, n: nat, schoolId: string): seq<Contact>
  {
    ScrapeSchoolContactsReturn(s, stateId, stateName, distId, distName, schoolId, Send(net, n))
  }

  lemma SchoolReaderApply(s: Scraper, stateId: string, stateName: string, distId: string, distName: string,
                          net: (nat, Request) -> Option<Response>, n0: nat, schoolId: string, k: nat)
    ensures SchoolReader(s, stateId, stateName, distId, distName, net, n0)(schoolId, k)
            == ScrapeSchoolContactsReturn(s, stateId, stateName, distId, distName, schoolId, Send(net, n0 + k))
  {
    assert SchoolReader(s, stateId, stateName, distId, distName, net, n0)(schoolId, k)
           == SchoolContacts(s, stateId, stateName, distId, distName, net, n0 + k, schoolId);
  }

  /** The `k`-th school's contacts are what `read` gives for its id as the `k`-th submission. */
  predicate CollectedBy(scraped: seq<Scrape>, read: (string, nat) -> seq<Contact>) {
    forall k :: 0 <= k < |scraped| ==> scraped[k].contacts == read(scraped[k].schoolId, k)
  }

  lemma CollectedBySnoc(scraped: seq<Scrape>, read: (string, nat) -> seq<Contact>, x: Scrape)
    requires CollectedBy(scraped, read) && x.contacts == read(x.schoolId, |scraped|)
    ensures CollectedBy(scraped + [x], read)
  {
    var ys := scraped + [x];
    forall k | 0 <= k < |ys| ensures ys[k].contacts == read(ys[k].schoolId, k) {
      if k < |scraped| {
        assert ys[k] == scraped[k];
      }
    }
  }

  /**
   * The `k`-th school's contacts are what `scrape_school_contacts_return`
   * gives for it as request `n0 + k`, with the scraper's tokens.
   */
  predicate ScrapesCollect(scraped: seq<Scrape>, s: Scraper, stateId: string, stateName: string,
                           distId: string, distName: string, net: (nat, Request) -> Option<Response>, n0: nat) {
    CollectedBy(scraped, SchoolReader(s, stateId, stateName, distId, distName, net, n0))
  }

  lemma ScrapesFollowSnoc(scraped: seq<Scrape>, schools: Dict, contacts: seq<Contact>)
    requires ScrapesFollow(scraped, schools) && |scraped| < |schools|
    ensures ScrapesFollow(scraped + [Scrape(schools[|scraped|].0, schools[|scraped|].1, contacts)], schools)
  {
  }

  /** Every school of the district's map was submitted (vacuous for a skipped district). */
  predicate Finished(v: Visit) {
    v.schools.None? || |v.scraped| == |v.schools.value|
  }

  /** Every record belongs to the state and the district, and has a way to reach someone. */
  predicate ContactsBelong(cs: seq<Contact>, stateName: string, distName: string) {
    forall c :: c in cs ==> c.state == stateName && c.district == distName && Reachable(c)
  }

  /** Every record a district produced belongs to the state and that district, and has a way to reach someone. */
  predicate RecordsBelong(v: Visit, stateName: string) {
    ContactsBelong(Data(v.scraped), stateName, v.distName)
  }

  lemma ContactsBelongAppend(a: seq<Contact>, b: seq<Contact>, stateName: string, distName: string)
    requires ContactsBelong(a, stateName, distName) && ContactsBelong(b, stateName, distName)
    ensures ContactsBelong(a + b, stateName, distName)
  {
  }

  /** `select_district` for the run's state, as request `n` with scraper `s`. */
  function DistrictStep(stateId: string, net: (nat, Request) -> Option<Response>)
    : (Scraper, string, nat) -> Outcome<Option<Dict>>
  {
    (s: Scraper, distId: string, n: nat) => SelectDistrict(s, stateId, distId, Send(net, n))
  }

  lemma DistrictStepApply(stateId: string, net: (nat, Request) -> Option<Response>, s: Scraper, distId: string, n: nat)
    ensures DistrictStep(stateId, net)(s, distId, n) == SelectDistrict(s, stateId, distId, Send(net, n))
  {
  }

  /**
   * The scraper a run holds after `visits`, starting from `s` at request
   * `n0`: each district's `step` replaces it, and the school submissions
   * leave it as it is.
   */
  function ScraperAfter(visits: seq<Visit>, s: Scraper, step: (Scraper, string, nat) -> Outcome<Option<Dict>>,
                        n0: nat): Scraper
  {
    if |visits| == 0 then s
    else
      var p := visits[..|visits| - 1];
      step(ScraperAfter(p, s, step, n0), visits[|visits| - 1].distId, n0 + Work(p)).scraper
  }

  /**
   * Visit `v` answers `listed`, the outcome of `select_district` as
   * request `n`: its school map is that outcome's, and its schools were
   * submitted from request `n + 1` with the tokens that step left.
   */
  predicate VisitAnswers(v: Visit, listed: Outcome<Option<Dict>>, stateId: string, stateName: string,
                         net: (nat, Request) -> Option<Response>, n: nat)
  {
    && v.schools == listed.result
    && ScrapesCollect(v.scraped, listed.scraper, stateId, stateName, v.distId, v.distName, net, n + 1)
  }

  /**
   * Every visit answers its district `step`, taken with the scraper the
   * earlier visits left, as the request after theirs (each earlier visit
   * used one request for its schools and one per submission).
   */
  predicate VisitsBy(visits: seq<Visit>, s: Scraper, step: (Scraper, string, nat) -> Outcome<Option<Dict>>,
                     stateId: string, stateName: string, net: (nat, Request) -> Option<Response>, n0: nat)
  {
    if |visits| == 0 then true
    else
      var p := visits[..|visits| - 1];
      var v := visits[|visits| - 1];
      && VisitsBy(p, s, step, stateId, stateName, net, n0)
      && VisitAnswers(v, step(ScraperAfter(p, s, step, n0), v.distId, n0 + Work(p)), stateId, stateName, net, n0 + Work(p))
  }

  /**
   * The visits of a run are what the server answered: district `i` was
   * listed by `select_district` with the tokens the earlier districts left,
   * as request `n0` plus the requests of the earlier districts, and its
   * schools were submitted right after.
   */
  predicate VisitsFromNet(visits: seq<Visit>, s: Scraper, stateId: string, stateName: string,
                          net: (nat, Request) -> Option<Response>, n0: nat)
  {
    VisitsBy(visits, s, DistrictStep(stateId, net), stateId, stateName, net, n0)
  }

  lemma ScraperAfterSnoc(visits: seq<Visit>, v: Visit, s: Scraper, step: (Scraper, string, nat) -> Outcome<Option<Dict>>,
                         n0: nat)
    ensures ScraperAfter(visits + [v], s, step, n0) == step(ScraperAfter(visits, s, step, n0), v.distId, n0 + Work(visits)).scraper
  {
    assert (visits + [v])[..|visits|] == visits;
  }

  lemma VisitsBySnoc(visits: seq<Visit>, v: Visit, s: Scraper, step: (Scraper, string, nat) -> Outcome<Option<Dict>>,
                     stateId: string, stateName: string, net: (nat, Request) -> Option<Response>, n0: nat)
    requires VisitsBy(visits, s, step, stateId, stateName, net, n0)
    requires VisitAnswers(v, step(ScraperAfter(visits, s, step, n0), v.distId, n0 + Work(visits)),
                          stateId, stateName, net, n0 + Work(visits))
    ensures VisitsBy(visits + [v], s, step, stateId, stateName, net, n0)
  {
    assert (visits + [v])[..|visits|] == visits;
  }

  /** Visiting one more district, with the scraper and request the earlier visits left, extends the run's link to the server. */
  lemma DistrictVisitStep(visits: seq<Visit>, v: Visit, scraper: Scraper, s: Scraper, distId: string,
                          step: (Scraper, string, nat) -> Outcome<Option<Dict>>, listed: Outcome<Option<Dict>>,
                          stateId: string, stateName: string, net: (nat, Request) -> Option<Response>, n0: nat, n: nat)
    requires s == ScraperAfter(visits, scraper, step, n0) && n == n0 + Work(visits)
    requires VisitsBy(visits, scraper, step, stateId, stateName, net, n0)
    requires v.distId == distId && step(s, distId, n) == listed
    requires VisitAnswers(v, listed, stateId, stateName, net, n)
    ensures listed.scraper == ScraperAfter(visits + [v], scraper, step, n0)
    ensures VisitsBy(visits + [v], scraper, step, stateId, stateName, net, n0)
  {
    ScraperAfterSnoc(visits, v, scraper, step, n0);
    VisitsBySnoc(visits, v, scraper, step, stateId, stateName, net, n0);
  }

  /** The districts entered are the first ones of the list, in order, with their names. */
  predicate VisitsFollow(visits: seq<Visit>, districts: Dict) {
    |visits| <= |districts| &&
    forall i :: 0 <= i < |visits| ==> visits[i].distId == districts[i].0 && visits[i].distName == districts[i].1
  }

  lemma VisitsFollowSnoc(visits: seq<Visit>, districts: Dict, v: Visit)
    requires VisitsFollow(visits, districts) && |visits| < |districts|
    requires v.distId == districts[|visits|].0 && v.distName == districts[|visits|].1
    ensures VisitsFollow(visits + [v], districts)
  {
  }

  /** Every district of the list was entered and finished. */
  predicate AllDone(visits: seq<Visit>, districts: Dict) {
    |visits| == |districts| && AllFinished(visits)
  }

  /** Every district entered was finished. */
  predicate AllFinished(visits: seq<Visit>) {
    forall i :: 0 <= i < |visits| ==> Finished(visits[i])
  }

  /** Every district entered before the last one was finished: only the last can have been cut short. */
  predicate EarlierFinished(visits: seq<Visit>) {
    forall i :: 0 <= i < |visits| - 1 ==> Finished(visits[i])
  }

  lemma EarlierFinishedSnoc(visits: seq<Visit>, v: Visit)
    requires AllFinished(visits)
    ensures EarlierFinished(visits + [v])
  {
    var ys := visits + [v];
    forall i | 0 <= i < |ys| - 1 ensures Finished(ys[i]) {
      assert ys[i] == visits[i];
    }
  }

  /** Every district entered is well formed and its records belong to it. */
  predicate VisitsSound(visits: seq<Visit>, stateName: string) {
    forall i :: 0 <= i < |visits| ==> WellFormedVisit(visits[i]) && RecordsBelong(visits[i], stateName)
  }

  lemma VisitsSoundSnoc(visits: seq<Visit>, v: Visit, stateName: string)
    requires VisitsSound(visits, stateName) && WellFormedVisit(v) && RecordsBelong(v, stateName)
    ensures VisitsSound(visits + [v], stateName)
    ensures AllFinished(visits) && Finished(v) ==> AllFinished(visits + [v])
  {
    var ys := visits + [v];
    forall i | 0 <= i < |ys| ensures ys[i] == if i < |visits| then visits[i] else v {
    }
  }

  /**
   * The value of the stop flag at a check, given how many earlier checks
   * saw it down: `stopAt` is the number of checks that see it down before
   * the first that sees it up (`None`: it is never raised). Because no
   * handler lowers it during a run (`StopFlagSticky`), every check after
   * that one sees it up as well.
   */
  predicate FlagUp(stopAt: Option<nat>, down: nat) {
    stopAt.Some? && down >= stopAt.value
  }

  lemma DataSnoc(scraped: seq<Scrape>, x: Scrape)
    ensures Data(scraped + [x]) == Data(scraped) + x.contacts
  {
    assert (scraped + [x])[..|scraped|] == scraped;
  }

  lemma VisitsSnoc(visits: seq<Visit>, v: Visit, folder: string)
    ensures Total(visits + [v]) == Total(visits) + |Data(v.scraped)|
    ensures Work(visits + [v]) == Work(visits) + 1 + |v.scraped|
    ensures CsvFiles(visits + [v], folder)
            == CsvFiles(visits, folder) + if Data(v.scraped) == [] then [] else [CsvFile(folder, CsvStem(v.distName))]
  {
    assert (visits + [v])[..|visits|] == visits;
  }

  /**
   * A run writes exactly one CSV per entered district that produced data,
   * named after the district, and no other file.
   */
  lemma {:induction false} CsvFilesMeaning(visits: seq<Visit>, folder: string)
    ensures forall f :: f in CsvFiles(visits, folder) <==>
              exists v :: v in visits && Data(v.scraped) != [] && f == CsvFile(folder, CsvStem(v.distName))
  {
    if |visits| > 0 {
      var init := visits[..|visits| - 1];
      CsvFilesMeaning(init, folder);
      assert visits == init + [visits[|visits| - 1]];
    }
  }

  /** The request the driver makes as its `n`-th (0-based), given the response the server gives. */
  function Send(net: (nat, Request) -> Option<Response>, n: nat): Transport {
    req => net(n, req)
  }

  /** How the three opening steps of a run end. */
  datatype Prepared = Failed(message: string) | Ready(scraper: Scraper, all: Dict)

  /**
   * The opening of `run_scraper`: initialise, choose school mode, fetch the
   * state's districts (requests 0, 1 and 2). A failed step, or a district
   * map that is `None` or empty, ends the run with that step's message.
   */
  function Prepare(stateId: string, stateName: string, net: (nat, Request) -> Option<Response>): (r: Prepared)
    ensures r.Failed? ==>
              r.message in {"Failed to initialize scraper", "Failed to select school mode",
                            "Failed to get districts for " + stateName}
    ensures r.Ready? ==> r.all != [] && UniqueKeys(r.all) && r.scraper.data == []
    ensures var init := InitializePage(NewScraper, Send(net, 0));
            var mode := SelectSchoolMode(init.scraper, Send(net, 1));
            var fetched := SelectState(mode.scraper, stateId, Send(net, 2));
            && (!init.result ==> r == Failed("Failed to initialize scraper"))
            && (init.result && !mode.result ==> r == Failed("Failed to select school mode"))
            && (init.result && mode.result ==>
                  (r.Failed? <==> fetched.result.None? || fetched.result.value == []))
            && (init.result && mode.result && r.Failed? ==> r.message == "Failed to get districts for " + stateName)
            && (r.Ready? ==> r.all == fetched.result.value && r.scraper == fetched.scraper)
  {
    var init := InitializePage(NewScraper, Send(net, 0));
    if !init.result then Failed("Failed to initialize scraper")
    else
      var mode := SelectSchoolMode(init.scraper, Send(net, 1));
      if !mode.result then Failed("Failed to select school mode")
      else
        var fetched := SelectState(mode.scraper, stateId, Send(net, 2));
        if fetched.result.None? || fetched.result.value == [] then Failed("Failed to get districts for " + stateName)
        else Ready(fetched.scraper, fetched.result.value)
  }

  /** Submitting the next school of the map keeps the school loop's invariants. */
  lemma ScrapeStep(scraped: seq<Scrape>, schools: Dict, s: Scraper, stateId: string, stateName: string,
                   distId: string, distName: string, net: (nat, Request) -> Option<Response>, n0: nat)
    requires |scraped| < |schools| && ScrapesFollow(scraped, schools)
    requires ScrapesCollect(scraped, s, stateId, stateName, distId, distName, net, n0)
    requires ContactsBelong(Data(scraped), stateName, distName)
    ensures var read := SchoolReader(s, stateId, stateName, distId, distName, net, n0);
            var id := schools[|scraped|].0;
            var scraped' := scraped + [Scrape(id, schools[|scraped|].1, read(id, |scraped|))];
            && ScrapesFollow(scraped', schools)
            && ScrapesCollect(scraped', s, stateId, stateName, distId, distName, net, n0)
            && ContactsBelong(Data(scraped'), stateName, distName)
  {
    var read := SchoolReader(s, stateId, stateName, distId, distName, net, n0);
    var id := schools[|scraped|].0;
    var contacts := read(id, |scraped|);
    var x := Scrape(id, schools[|scraped|].1, contacts);
    SchoolReaderApply(s, stateId, stateName, distId, distName, net, n0, id, |scraped|);
    DataSnoc(scraped, x);
    ContactsBelongAppend(Data(scraped), contacts, stateName, distName);
    ScrapesFollowSnoc(scraped, schools, contacts);
    CollectedBySnoc(scraped, read, x);
  }

  /**
   * The school loop of one district: before each school check the stop
   * flag (`down` checks have seen it down so far), then submit the school
   * with request `n0 + j`. Stops at the end of the map or at the first
   * check that sees the flag up.
   */
  method ScrapeSchools(scraper: Scraper, stateId: string, stateName: string, distId: string, distName: string,
                       schools: Dict, net: (nat, Request) -> Option<Response>, n0: nat,
                       stopAt: Option<nat>, down: nat)
    returns (scraped: seq<Scrape>, n: nat)
    requires stopAt.Some? ==> down <= stopAt.value
    ensures ScrapesFollow(scraped, schools) && n == n0 + |scraped|
    ensures ScrapesCollect(scraped, scraper, stateId, stateName, distId, distName, net, n0)
    ensures ContactsBelong(Data(scraped), stateName, distName)
    ensures stopAt.Some? ==> down + |scraped| <= stopAt.value
    ensures |scraped| == |schools| || (stopAt.Some? && down + |scraped| == stopAt.value)
  {
    scraped, n := [], n0;
    var read := SchoolReader(scraper, stateId, stateName, distId, distName, net, n0);
    var j := 0;
    while j < |schools|
      invariant 0 <= j <= |schools| && |scraped| == j && n == n0 + j
      invariant ScrapesFollow(scraped, schools)
      invariant ScrapesCollect(scraped, scraper, stateId, stateName, distId, distName, net, n0)
      invariant ContactsBelong(Data(scraped), stateName, distName)
      invariant stopAt.Some? ==> down + j <= stopAt.value
    {
      if FlagUp(stopAt, down + j) {
        return;
      }
      var id := schools[j].0;
      var x := Scrape(id, schools[j].1, read(id, |scraped|));
      ScrapeStep(scraped, schools, scraper, stateId, stateName, distId, distName, net, n0);
      scraped := scraped + [x];
      n := n + 1;
      j := j + 1;
    }
  }

  /**
   * One pass of the district loop after its stop check: fetch the schools
   * with request `n0`, skip the district when there are none, and run the
   * school loop otherwise.
   */
  method VisitDistrict(scraper: Scraper, stateId: string, stateName: string, distId: string, distName: string,
                       net: (nat, Request) -> Option<Response>, n0: nat, stopAt: Option<nat>, down: nat)
    returns (scraper': Scraper, v: Visit, n: nat)
    requires stopAt.Some? ==> down < stopAt.value
    ensures v.distId == distId && v.distName == distName
    ensures WellFormedVisit(v) && RecordsBelong(v, stateName)
    ensures stopAt.Some? ==> down + 1 + |v.scraped| <= stopAt.value
    ensures Finished(v) || (stopAt.Some? && down + 1 + |v.scraped| == stopAt.value)
    ensures v.schools == SelectDistrict(scraper, stateId, distId, Send(net, n0)).result
    ensures scraper' == SelectDistrict(scraper, stateId, distId, Send(net, n0)).scraper
    ensures ScrapesCollect(v.scraped, scraper', stateId, stateName, distId, distName, net, n0 + 1)
    ensures VisitAnswers(v, SelectDistrict(scraper, stateId, distId, Send(net, n0)), stateId, stateName, net, n0)
    ensures n == n0 + 1 + |v.scraped|
  {
    var listed := SelectDistrict(scraper, stateId, distId, Send(net, n0));
    scraper' := listed.scraper;
    if listed.result.None? || listed.result.value == [] {
      v := Visit(distId, distName, listed.result, []);
      n := n0 + 1;
      return;
    }
    var scraped;
    scraped, n := ScrapeSchools(scraper', stateId, stateName, distId, distName, listed.result.value,
                                net, n0 + 1, stopAt, down + 1);
    v := Visit(distId, distName, listed.result, scraped);
  }

  /**
   * The district loop of `run_scraper`: for each district of the list, in
   * order, check the stop flag and stop if it is up, otherwise
   * `VisitDistrict` it (from request `n0` on) and write its CSV if it
   * produced data. Returns the districts entered, the files written and
   * the running record count.
   */
  method VisitDistricts(scraper: Scraper, stateId: string, stateName: string, districts: Dict, folder: string,
                        net: (nat, Request) -> Option<Response>, n0: nat, stopAt: Option<nat>)
    returns (visits: seq<Visit>, files: seq<OutputFile>, total: nat)
    ensures VisitsFollow(visits, districts)
    ensures forall i :: 0 <= i < |visits| ==> WellFormedVisit(visits[i])
    ensures forall i :: 0 <= i < |visits| ==> RecordsBelong(visits[i], stateName)
    ensures total == Total(visits)
    ensures files == CsvFiles(visits, folder)
    ensures stopAt.Some? ==> Work(visits) <= stopAt.value
    ensures AllDone(visits, districts) || (stopAt.Some? && Work(visits) == stopAt.value)
    ensures EarlierFinished(visits)
    ensures VisitsFromNet(visits, scraper, stateId, stateName, net, n0)
  {
    visits, files, total := [], [], 0;
    var step := DistrictStep(stateId, net);
    var s := scraper;
    var n := n0;
    var i := 0;
    while i < |districts|
      invariant 0 <= i <= |districts| && |visits| == i
      invariant VisitsFollow(visits, districts)
      invariant VisitsSound(visits, stateName)
      invariant total == Total(visits)
      invariant files == CsvFiles(visits, folder)
      invariant stopAt.Some? ==> Work(visits) <= stopAt.value
      invariant AllFinished(visits) || (stopAt.Some? && Work(visits) == stopAt.value)
      invariant EarlierFinished(visits)
      invariant n == n0 + Work(visits) && s == ScraperAfter(visits, scraper, step, n0)
      invariant VisitsBy(visits, scraper, step, stateId, stateName, net, n0)
    {
      if FlagUp(stopAt, Work(visits)) {
        break;
      }
      ghost var listed := SelectDistrict(s, stateId, districts[i].0, Send(net, n));
      DistrictStepApply(stateId, net, s, districts[i].0, n);
      var v, s', n';
      s', v, n' := VisitDistrict(s, stateId, stateName, districts[i].0, districts[i].1, net, n, stopAt, Work(visits));
      VisitsSnoc(visits, v, folder);
      VisitsFollowSnoc(visits, districts, v);
      VisitsSoundSnoc(visits, v, stateName);
      EarlierFinishedSnoc(visits, v);
      DistrictVisitStep(visits, v, scraper, s, districts[i].0, step, listed, stateId, stateName, net, n0, n);
      s, n := s', n';
      visits := visits + [v];
      if Data(v.scraped) != [] {
        files := files + [CsvFile(folder, CsvStem(v.distName))];
      }
      total := total + |Data(v.scraped)|;
      i := i + 1;
    }
  }

  /**
   * `run_scraper`: the opening steps, then `VisitDistricts` over the
   * filtered district list from request 3 on, then the output choice.
   * `net(n, req)` is the server's answer to the driver's `n`-th request and
   * `stopAt` fixes the stop flag's reads as `FlagUp` says; a flag already
   * up in `st0` is read up at the first check, and a run cut short by the
   * flag leaves it up in the status. Besides the final status it returns
   * the filtered district list, the districts entered and the files written.
   */
  method RunScraper(st0: Status, stateId: string, selected: seq<string>, states: map<string, string>,
                    net: (nat, Request) -> Option<Response>, stopAt: Option<nat>)
    returns (st: Status, districts: Dict, visits: seq<Visit>, files: seq<OutputFile>)
    requires st0.shouldStop ==> stopAt == Some(0)
    ensures !st.isRunning
    ensures st0.shouldStop || !AllDone(visits, districts) ==> st.shouldStop
    ensures stopAt.None? ==> !st.shouldStop
    ensures st0.shouldStop ==> visits == [] && files == []
    ensures VisitsFollow(visits, districts)
    ensures forall i :: 0 <= i < |visits| ==> WellFormedVisit(visits[i])
    ensures forall i :: 0 <= i < |visits| ==> RecordsBelong(visits[i], StateLabel(states, stateId))
    ensures st.totalRecords == Total(visits)
    ensures st.error.Some? <==> Prepare(stateId, StateLabel(states, stateId), net).Failed?
    ensures st.error.Some? ==>
              && st.error.value == Prepare(stateId, StateLabel(states, stateId), net).message
              && districts == [] && visits == [] && files == []
              && st.outputFile == st0.outputFile && st.outputFolder == st0.outputFolder
    ensures st.error.None? ==>
              && districts == FilterDistricts(Prepare(stateId, StateLabel(states, stateId), net).all, selected)
              && files == CsvFiles(visits, FolderName(StateLabel(states, stateId)))
              && st.outputFile == ChooseOutput(files, StateLabel(states, stateId), st0.outputFile)
              && st.outputFolder == Some(FolderName(StateLabel(states, stateId)))
              && VisitsFromNet(visits, Prepare(stateId, StateLabel(states, stateId), net).scraper,
                               stateId, StateLabel(states, stateId), net, 3)
    ensures stopAt.Some? ==> Work(visits) <= stopAt.value
    ensures AllDone(visits, districts) || (stopAt.Some? && Work(visits) == stopAt.value)
    ensures EarlierFinished(visits)
  {
    st := st0.(isRunning := true, error := None, totalRecords := 0);
    districts, visits, files := [], [], [];
    var stateName := StateLabel(states, stateId);
    var prepared := Prepare(stateId, stateName, net);
    if prepared.Failed? {
      st := st.(error := Some(prepared.message), isRunning := false);
      return;
    }
    districts := FilterDistricts(prepared.all, selected);
    var folder := FolderName(stateName);
    var total;
    visits, files, total := VisitDistricts(prepared.scraper, stateId, stateName, districts, folder, net, 3, stopAt);
    st := st.(totalRecords := total, outputFile := ChooseOutput(files, stateName, st.outputFile),
              outputFolder := Some(folder), isRunning := false,
              shouldStop := st.shouldStop || !AllDone(visits, districts));
  }
}
