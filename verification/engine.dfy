/**
 * The form-navigation engine (`InspireScraper`): the token triple it holds,
 * the postback payloads it builds from it, and the steps initialize, select
 * mode, select state, select district and submit school. The transport is a
 * parameter: a function from the request to the response body, or `None`
 * when the request failed (`make_request` returning `None` after the
 * session's own retries, an HTTP error status, a timeout, any exception).
 */
module Engine {
  import opened Wrappers
  import opened Text
  import opened Dicts
  import opened Delta
  import opened Markup

  /** The fields of the page's postback form. */
  datatype Field =
    | EventTarget | EventArgument | ViewStateField | GeneratorField | EventValidationField
    | AsyncPost | ModeList | StateList | DistrictList | SchoolList

  /** The name a field is posted under. */
  function FieldName(f: Field): string {
    match f
    case EventTarget => "__EVENTTARGET"
    case EventArgument => "__EVENTARGUMENT"
    case ViewStateField => ViewStateName
    case GeneratorField => GeneratorName
    case EventValidationField => EventValidationName
    case AsyncPost => "__ASYNCPOST"
    case ModeList => "ctl00$ContentPlaceHolder1$rblSelect"
    case StateList => "ctl00$ContentPlaceHolder1$ddlState"
    case DistrictList => "ctl00$ContentPlaceHolder1$ddlDist"
    case SchoolList => "ctl00$ContentPlaceHolder1$ddlSchool"
  }

  /** No two fields are posted under the same name. */
  lemma FieldNamesDistinct(f: Field, g: Field)
    ensures FieldName(f) == FieldName(g) ==> f == g
  {
  }

  /** A postback payload, keyed by field. */
  type Form = Assoc<Field, string>

  datatype Request = Fetch | Post(form: Form)

  /** A response: its body text, and what the HTML parser makes of that body. */
  datatype Response = Response(text: string, page: Page)

  type Transport = Request -> Option<Response>

  // Event targets and element ids of the remote page.
  const ModeTarget: string := "ctl00$ContentPlaceHolder1$rblSelect$2"
  const StateTarget: string := "ctl00$ContentPlaceHolder1$ddlState"
  const DistrictTarget: string := "ctl00$ContentPlaceHolder1$ddlDist"
  const SubmitTarget: string := "ctl00$ContentPlaceHolder1$btnSubmit"
  const DistDropdownId: string := "ctl00_ContentPlaceHolder1_ddlDist"
  const SchoolDropdownId: string := "ctl00_ContentPlaceHolder1_ddlSchool"
  const ContactTableId: string := "ctl00_ContentPlaceHolder1_grdContactDtl"

  /** The scraper's state: the current tokens and the records kept so far (`self.data`). */
  datatype Scraper = Scraper(tokens: Tokens, data: seq<Contact>)

  /** A fresh scraper: three empty tokens, no records. */
  const NewScraper: Scraper := Scraper(Tokens("", "", ""), [])

  /** What a step returns, together with the scraper it leaves. */
  datatype Outcome<T> = Outcome(scraper: Scraper, result: T)

  // ---------------------------------------------------------------------
  // Payloads

  /** The fields every postback carries, in the order the payload dict lists them. */
  function BaseForm(target: string, t: Tokens): Form {
    [(EventTarget, target), (EventArgument, ""),
     (ViewStateField, t.viewstate), (GeneratorField, t.viewStateGenerator),
     (EventValidationField, t.eventValidation),
     (AsyncPost, "true"), (ModeList, "2")]
  }

  /**
   * The form resends the session: the three tokens as given, the
   * asynchronous-postback flag and the "school details" mode.
   */
  ghost predicate CarriesSession(f: Form, t: Tokens) {
    && Get(f, ViewStateField) == Some(t.viewstate)
    && Get(f, EventValidationField) == Some(t.eventValidation)
    && Get(f, GeneratorField) == Some(t.viewStateGenerator)
    && Get(f, AsyncPost) == Some("true")
    && Get(f, ModeList) == Some("2")
    && Get(f, EventArgument) == Some("")
  }

  /** The selections the form carries, in wizard order. */
  function Selections(f: Form): seq<Option<string>> {
    [Get(f, StateList), Get(f, DistrictList), Get(f, SchoolList)]
  }

  /** Looking a field up in a form: the base fields first, then the selections. */
  lemma BaseFormGet(target: string, t: Tokens, sel: Form, x: Field)
    ensures Get(BaseForm(target, t) + sel, x)
            == match x
               case EventTarget => Some(target)
               case EventArgument => Some("")
               case ViewStateField => Some(t.viewstate)
               case GeneratorField => Some(t.viewStateGenerator)
               case EventValidationField => Some(t.eventValidation)
               case AsyncPost => Some("true")
               case ModeList => Some("2")
               case _ => Get(sel, x)
  {
    var b := BaseForm(target, t);
    assert b + sel == [b[0]] + ([b[1]] + ([b[2]] + ([b[3]] + ([b[4]] + ([b[5]] + ([b[6]] + sel))))));
    GetCons(b[0], [b[1]] + ([b[2]] + ([b[3]] + ([b[4]] + ([b[5]] + ([b[6]] + sel))))), x);
    GetCons(b[1], [b[2]] + ([b[3]] + ([b[4]] + ([b[5]] + ([b[6]] + sel)))), x);
    GetCons(b[2], [b[3]] + ([b[4]] + ([b[5]] + ([b[6]] + sel))), x);
    GetCons(b[3], [b[4]] + ([b[5]] + ([b[6]] + sel)), x);
    GetCons(b[4], [b[5]] + ([b[6]] + sel), x);
    GetCons(b[5], [b[6]] + sel, x);
    GetCons(b[6], sel, x);
  }

  /** The selection fields, in wizard order. */
  const ChainKeys: seq<Field> := [StateList, DistrictList, SchoolList]

  /** The selections of a payload: the first few fields of the chain, in order. */
  predicate ChainPrefix(sel: Form) {
    && |sel| <= 3
    && (|sel| > 0 ==> sel[0].0 == StateList)
    && (|sel| > 1 ==> sel[1].0 == DistrictList)
    && (|sel| > 2 ==> sel[2].0 == SchoolList)
  }

  /** The fields of `BaseForm`, in order. */
  const BaseFields: seq<Field> :=
    [EventTarget, EventArgument, ViewStateField, GeneratorField, EventValidationField, AsyncPost, ModeList]

  lemma BaseFormKeys(target: string, t: Tokens)
    ensures Keys(BaseForm(target, t)) == BaseFields
  {
    var ks := Keys(BaseForm(target, t));
    forall i | 0 <= i < 7 ensures ks[i] == BaseFields[i] {
      assert ks[i] == BaseForm(target, t)[i].0;
    }
  }

  lemma FormKeys(target: string, t: Tokens, sel: Form)
    requires ChainPrefix(sel)
    ensures Keys(BaseForm(target, t) + sel) == BaseFields + ChainKeys[..|sel|]
  {
    KeysAppend(BaseForm(target, t), sel);
    BaseFormKeys(target, t);
    ChainKeysOf(sel);
  }

  lemma ChainKeysOf(sel: Form)
    requires ChainPrefix(sel)
    ensures Keys(sel) == ChainKeys[..|sel|]
  {
    var ks := Keys(sel);
    assert |ks| == |ChainKeys[..|sel|]|;
    forall i | 0 <= i < |sel| ensures ks[i] == ChainKeys[..|sel|][i] {
      assert ks[i] == sel[i].0;
    }
  }

  /** The position each field takes in every payload. */
  function FieldOrder(f: Field): nat {
    match f
    case EventTarget => 0
    case EventArgument => 1
    case ViewStateField => 2
    case GeneratorField => 3
    case EventValidationField => 4
    case AsyncPost => 5
    case ModeList => 6
    case StateList => 7
    case DistrictList => 8
    case SchoolList => 9
  }

  /** Every payload lists its fields in the one fixed order. */
  lemma FormOrdered(target: string, t: Tokens, sel: Form, i: nat)
    requires ChainPrefix(sel) && i < |BaseForm(target, t) + sel|
    ensures FieldOrder((BaseForm(target, t) + sel)[i].0) == i
  {
    if i >= 7 {
      assert (BaseForm(target, t) + sel)[i] == sel[i - 7];
    }
  }

  lemma FormUnique(target: string, t: Tokens, sel: Form)
    requires ChainPrefix(sel)
    ensures UniqueKeys(BaseForm(target, t) + sel)
  {
    var f := BaseForm(target, t) + sel;
    forall i, j | 0 <= i < j < |f| ensures f[i].0 != f[j].0 {
      FormOrdered(target, t, sel, i);
      FormOrdered(target, t, sel, j);
    }
  }

  /** A base form followed by a prefix of the selection chain is a well-formed session form. */
  lemma FormFacts(target: string, t: Tokens, sel: Form)
    requires ChainPrefix(sel)
    ensures CarriesSession(BaseForm(target, t) + sel, t)
    ensures Get(BaseForm(target, t) + sel, EventTarget) == Some(target)
    ensures Selections(BaseForm(target, t) + sel) == Selections(sel)
  {
    BaseFormGet(target, t, sel, ViewStateField);
    BaseFormGet(target, t, sel, EventValidationField);
    BaseFormGet(target, t, sel, GeneratorField);
    BaseFormGet(target, t, sel, AsyncPost);
    BaseFormGet(target, t, sel, ModeList);
    BaseFormGet(target, t, sel, EventArgument);
    BaseFormGet(target, t, sel, EventTarget);
    BaseFormGet(target, t, sel, StateList);
    BaseFormGet(target, t, sel, DistrictList);
    BaseFormGet(target, t, sel, SchoolList);
  }

  /** A prefix of the selection chain is looked up position by position. */
  lemma SelectionsGet(sel: Form)
    requires ChainPrefix(sel)
    ensures Get(sel, StateList) == if |sel| > 0 then Some(sel[0].1) else None
    ensures Get(sel, DistrictList) == if |sel| > 1 then Some(sel[1].1) else None
    ensures Get(sel, SchoolList) == if |sel| > 2 then Some(sel[2].1) else None
  {
  }

  /** What every payload built from a prefix of the selection chain carries. */
  lemma ChainFormFacts(target: string, t: Tokens, sel: Form)
    requires ChainPrefix(sel)
    ensures CarriesSession(BaseForm(target, t) + sel, t)
    ensures Get(BaseForm(target, t) + sel, EventTarget) == Some(target)
    ensures Selections(BaseForm(target, t) + sel)
            == [if |sel| > 0 then Some(sel[0].1) else None,
                if |sel| > 1 then Some(sel[1].1) else None,
                if |sel| > 2 then Some(sel[2].1) else None]
    ensures Keys(BaseForm(target, t) + sel) == BaseFields + ChainKeys[..|sel|]
  {
    FormFacts(target, t, sel);
    FormKeys(target, t, sel);
    SelectionsGet(sel);
  }

  /** Payload of `select_school_mode`. */
  function ModeForm(t: Tokens): Form {
    BaseForm(ModeTarget, t)
  }

  /** Payload of `select_state`: adds the state id. */
  function StateForm(t: Tokens, stateId: string): Form {
    BaseForm(StateTarget, t) + [(StateList, stateId)]
  }

  /** Payload of `select_district`: adds the district id to the state id. */
  function DistrictForm(t: Tokens, stateId: string, distId: string): Form {
    BaseForm(DistrictTarget, t) + [(StateList, stateId), (DistrictList, distId)]
  }

  /** Payload of `scrape_school_contacts_return`: the whole selection chain plus the school id. */
  function SubmitForm(t: Tokens, stateId: string, distId: string, schoolId: string): Form {
    BaseForm(SubmitTarget, t) + [(StateList, stateId), (DistrictList, distId), (SchoolList, schoolId)]
  }

  /**
   * What `SubmitForm` carries: the session, the submit button as event
   * target, and the full selection chain. (The payload facts are lemmas
   * rather than postconditions so that the steps built on the payloads
   * stay cheap to reason about.)
   */
  lemma SubmitFormFacts(t: Tokens, stateId: string, distId: string, schoolId: string)
    ensures var f := SubmitForm(t, stateId, distId, schoolId);
      && CarriesSession(f, t)
      && Get(f, EventTarget) == Some(SubmitTarget)
      && Selections(f) == [Some(stateId), Some(distId), Some(schoolId)]
      && Keys(f) == BaseFields + ChainKeys
  {
    var sel := [(StateList, stateId), (DistrictList, distId), (SchoolList, schoolId)];
    assert ChainPrefix(sel);
    assert SubmitForm(t, stateId, distId, schoolId) == BaseForm(SubmitTarget, t) + sel;
    ChainFormFacts(SubmitTarget, t, sel);
    assert ChainKeys[..3] == ChainKeys;
  }

  /** What `ModeForm` carries: the session, the mode radio list as event target, no selection. */
  lemma ModeFormFacts(t: Tokens)
    ensures var f := ModeForm(t);
      && CarriesSession(f, t)
      && Get(f, EventTarget) == Some(ModeTarget)
      && Selections(f) == [None, None, None]
      && Keys(f) == BaseFields
  {
    ChainFormFacts(ModeTarget, t, []);
    assert BaseForm(ModeTarget, t) + [] == BaseForm(ModeTarget, t);
  }

  /** What `StateForm` carries: the session, the state list as event target, the state selected. */
  lemma StateFormFacts(t: Tokens, stateId: string)
    ensures var f := StateForm(t, stateId);
      && CarriesSession(f, t)
      && Get(f, EventTarget) == Some(StateTarget)
      && Selections(f) == [Some(stateId), None, None]
      && Keys(f) == BaseFields + [StateList]
  {
    ChainFormFacts(StateTarget, t, [(StateList, stateId)]);
  }

  /** What `DistrictForm` carries: the session, the district list as event target, state and district selected. */
  lemma DistrictFormFacts(t: Tokens, stateId: string, distId: string)
    ensures var f := DistrictForm(t, stateId, distId);
      && CarriesSession(f, t)
      && Get(f, EventTarget) == Some(DistrictTarget)
      && Selections(f) == [Some(stateId), Some(distId), None]
      && Keys(f) == BaseFields + [StateList, DistrictList]
  {
    ChainFormFacts(DistrictTarget, t, [(StateList, stateId), (DistrictList, distId)]);
  }

  /** No payload names a field twice. */
  lemma FormsUnique(t: Tokens, stateId: string, distId: string, schoolId: string)
    ensures UniqueKeys(ModeForm(t))
    ensures UniqueKeys(StateForm(t, stateId))
    ensures UniqueKeys(DistrictForm(t, stateId, distId))
    ensures UniqueKeys(SubmitForm(t, stateId, distId, schoolId))
  {
    FormUnique(ModeTarget, t, []);
    assert BaseForm(ModeTarget, t) + [] == ModeForm(t);
    FormUnique(StateTarget, t, [(StateList, stateId)]);
    FormUnique(DistrictTarget, t, [(StateList, stateId), (DistrictList, distId)]);
    FormUnique(SubmitTarget, t, [(StateList, stateId), (DistrictList, distId), (SchoolList, schoolId)]);
  }

  /**
   * The payloads are cumulative: each step's fields are the previous step's
   * fields, in the same order, followed by the newest selection.
   */
  lemma FormsCumulative(t: Tokens, stateId: string, distId: string, schoolId: string)
    ensures Keys(ModeForm(t)) == BaseFields
    ensures Keys(StateForm(t, stateId)) == Keys(ModeForm(t)) + [StateList]
    ensures Keys(DistrictForm(t, stateId, distId)) == Keys(StateForm(t, stateId)) + [DistrictList]
    ensures Keys(SubmitForm(t, stateId, distId, schoolId)) == Keys(DistrictForm(t, stateId, distId)) + [SchoolList]
  {
    assert BaseFields + [StateList, DistrictList] == (BaseFields + [StateList]) + [DistrictList];
    FormKeys(ModeTarget, t, []);
    assert ModeForm(t) == BaseForm(ModeTarget, t) + [];
    FormKeys(StateTarget, t, [(StateList, stateId)]);
    FormKeys(DistrictTarget, t, [(StateList, stateId), (DistrictList, distId)]);
    FormKeys(SubmitTarget, t, [(StateList, stateId), (DistrictList, distId), (SchoolList, schoolId)]);
    assert ChainKeys[..0] == [] && ChainKeys[..1] == [StateList] && ChainKeys[..2] == [StateList, DistrictList];
    assert ChainKeys[..3] == ChainKeys;
    assert BaseFields + ChainKeys == (BaseFields + [StateList, DistrictList]) + [SchoolList];
  }

  /** The payload as posted: each field under its name, in the same order. */
  function Encode(f: Form): (d: Dict)
    ensures |d| == |f|
    ensures forall i :: 0 <= i < |f| ==> d[i] == (FieldName(f[i].0), f[i].1)
  {
    if |f| == 0 then [] else [(FieldName(f[0].0), f[0].1)] + Encode(f[1..])
  }

  /** Encoding keeps lookups: the value posted under a field's name is the field's value. */
  lemma {:induction false} EncodeGet(f: Form, x: Field)
    ensures Get(Encode(f), FieldName(x)) == Get(f, x)
  {
    if |f| > 0 {
      FieldNamesDistinct(f[0].0, x);
      assert Encode(f) == [(FieldName(f[0].0), f[0].1)] + Encode(f[1..]);
      GetCons((FieldName(f[0].0), f[0].1), Encode(f[1..]), FieldName(x));
      assert f == [f[0]] + f[1..];
      GetCons(f[0], f[1..], x);
      EncodeGet(f[1..], x);
    }
  }

  // ---------------------------------------------------------------------
  // Steps

  /**
   * `initialize_page`: fetch the page and take the three tokens from its
   * hidden inputs. It fails, leaving the scraper as it was, when the fetch
   * fails or an input or its value is missing.
   */
  function InitializePage(s: Scraper, send: Transport): (r: Outcome<bool>)
    ensures r.result <==> send(Fetch).Some? && ExtractViewstateFromHtml(send(Fetch).value.page).Some?
    ensures !r.result ==> r.scraper == s
    ensures r.result ==>
      var inputs := send(Fetch).value.page.inputs;
      && r.scraper.data == s.data
      && Some(r.scraper.tokens.viewstate) == HiddenValue(inputs, ViewStateName)
      && Some(r.scraper.tokens.eventValidation) == HiddenValue(inputs, EventValidationName)
      && Some(r.scraper.tokens.viewStateGenerator) == HiddenValue(inputs, GeneratorName)
  {
    match send(Fetch)
    case None => Outcome(s, false)
    case Some(resp) =>
      match ExtractViewstateFromHtml(resp.page)
      case None => Outcome(s, false)
      case Some(tokens) => Outcome(s.(tokens := tokens), true)
  }

  /**
   * After a successful postback the scraper holds exactly the tokens the
   * response delta carries (empty for a token the delta lacks), and its
   * records are untouched.
   */
  ghost predicate AdoptsDelta(s: Scraper, s': Scraper, text: string) {
    && s'.data == s.data
    && Decodes(text, ViewStateName, s'.tokens.viewstate)
    && Decodes(text, EventValidationName, s'.tokens.eventValidation)
    && Decodes(text, GeneratorName, s'.tokens.viewStateGenerator)
  }

  /**
   * `select_school_mode`: post the "school details" choice with the current
   * tokens. On a response the tokens are replaced by the delta's; on a
   * failed request nothing changes.
   */
  function SelectSchoolMode(s: Scraper, send: Transport): (r: Outcome<bool>)
    ensures var reply := send(Post(ModeForm(s.tokens)));
      && (r.result <==> reply.Some?)
      && (reply.None? ==> r.scraper == s)
      && (reply.Some? ==> AdoptsDelta(s, r.scraper, reply.value.text))
  {
    match send(Post(ModeForm(s.tokens)))
    case None => Outcome(s, false)
    case Some(resp) => Outcome(s.(tokens := ParseDelta(resp.text)), true)
  }

  /**
   * The option map a selection step returns: the kept options of the
   * dropdown `id` in the response (empty when the dropdown is absent), each
   * value once, in the order of its first kept option, labelled by its last.
   */
  ghost predicate ListsDropdown(page: Page, id: string, options: Dict) {
    && UniqueKeys(options)
    && (FindSelect(page.selects, id).None? ==> options == [])
    && (FindSelect(page.selects, id).Some? ==>
          var opts := FindSelect(page.selects, id).value.options;
          && Keys(options) == FirstOccurrences(KeptValues(opts))
          && (forall k :: Get(options, k).Some? <==> SomeKept(opts, k))
          && (forall k, i :: LastKept(opts, k, i) ==> Get(options, k) == Some(OptionLabel(opts[i]))))
  }

  /**
   * `select_state`: post the state with the current tokens. On a response
   * the tokens are replaced by the delta's and the districts of the
   * response's district dropdown are returned; on a failed request the
   * result is `None` and nothing changes. Its contract is `SelectStateFacts`.
   */
  function SelectState(s: Scraper, stateId: string, send: Transport): Outcome<Option<Dict>> {
    match send(Post(StateForm(s.tokens, stateId)))
    case None => Outcome(s, None)
    case Some(resp) => Outcome(s.(tokens := ParseDelta(resp.text)), Some(ExtractDropdownFromDelta(resp.page, DistDropdownId)))
  }

  /**
   * `select_district`: as `SelectState`, one level down, returning the
   * schools. Its contract is `SelectDistrictFacts`.
   */
  function SelectDistrict(s: Scraper, stateId: string, distId: string, send: Transport): Outcome<Option<Dict>> {
    match send(Post(DistrictForm(s.tokens, stateId, distId)))
    case None => Outcome(s, None)
    case Some(resp) => Outcome(s.(tokens := ParseDelta(resp.text)), Some(ExtractDropdownFromDelta(resp.page, SchoolDropdownId)))
  }

  /**
   * `select_state` gives a map exactly when the post gets a reply; then the
   * tokens are the reply delta's and the map lists the district dropdown
   * of the reply. On a failed request nothing changes.
   */
  lemma SelectStateFacts(s: Scraper, stateId: string, send: Transport)
    ensures var r := SelectState(s, stateId, send);
      var reply := send(Post(StateForm(s.tokens, stateId)));
      && (r.result.Some? <==> reply.Some?)
      && (reply.None? ==> r.scraper == s)
      && (reply.Some? ==> AdoptsDelta(s, r.scraper, reply.value.text))
      && (reply.Some? ==> r.result == Some(ExtractDropdownFromDelta(reply.value.page, DistDropdownId)))
      && (reply.Some? ==> ListsDropdown(reply.value.page, DistDropdownId, r.result.value))
  {
    var reply := send(Post(StateForm(s.tokens, stateId)));
    if reply.Some? {
      DropdownListed(reply.value.page, DistDropdownId);
    }
  }

  /** As `SelectStateFacts`, for `select_district` and the school dropdown. */
  lemma SelectDistrictFacts(s: Scraper, stateId: string, distId: string, send: Transport)
    ensures var r := SelectDistrict(s, stateId, distId, send);
      var reply := send(Post(DistrictForm(s.tokens, stateId, distId)));
      && (r.result.Some? <==> reply.Some?)
      && (reply.None? ==> r.scraper == s)
      && (reply.Some? ==> AdoptsDelta(s, r.scraper, reply.value.text))
      && (reply.Some? ==> r.result == Some(ExtractDropdownFromDelta(reply.value.page, SchoolDropdownId)))
      && (reply.Some? ==> ListsDropdown(reply.value.page, SchoolDropdownId, r.result.value))
  {
    var reply := send(Post(DistrictForm(s.tokens, stateId, distId)));
    if reply.Some? {
      DropdownListed(reply.value.page, SchoolDropdownId);
    }
  }

  /**
   * The session is handed on: the payload of `select_district` that follows
   * `select_state` carries the three tokens the state reply's delta
   * decodes to, or, when the state request failed, the tokens it had before.
   */
  lemma SessionForwarded(s: Scraper, stateId: string, distId: string, send: Transport)
    ensures var reply := send(Post(StateForm(s.tokens, stateId)));
      var f := DistrictForm(SelectState(s, stateId, send).scraper.tokens, stateId, distId);
      && (reply.None? ==> CarriesSession(f, s.tokens))
      && (reply.Some? ==>
            && Get(f, ViewStateField).Some? && Decodes(reply.value.text, ViewStateName, Get(f, ViewStateField).value)
            && Get(f, EventValidationField).Some?
            && Decodes(reply.value.text, EventValidationName, Get(f, EventValidationField).value)
            && Get(f, GeneratorField).Some? && Decodes(reply.value.text, GeneratorName, Get(f, GeneratorField).value))
  {
    SelectStateFacts(s, stateId, send);
    DistrictFormFacts(SelectState(s, stateId, send).scraper.tokens, stateId, distId);
  }

  lemma DropdownListed(page: Page, id: string)
    ensures ListsDropdown(page, id, ExtractDropdownFromDelta(page, id))
  {
    if FindSelect(page.selects, id).Some? {
      var opts := FindSelect(page.selects, id).value.options;
      var options := ExtractDropdownFromDelta(page, id);
      assert options == DropdownOptions(opts);
      DropdownKeyOrder(opts);
      forall k ensures Get(options, k).Some? <==> SomeKept(opts, k) {
        DropdownOptionsMeaning(opts, k);
      }
      forall k, i | LastKept(opts, k, i) ensures Get(options, k) == Some(OptionLabel(opts[i])) {
        DropdownOptionsMeaning(opts, k);
      }
    }
  }

  /**
   * `scrape_school_contacts_return`: submit the full selection with the
   * current tokens and read the contact table of the response. A failed
   * request or a missing table gives no contacts. The scraper is not
   * changed: the tokens are not refreshed after a submit.
   */
  function ScrapeSchoolContactsReturn(s: Scraper, stateId: string, stateName: string, distId: string,
                                      distName: string, schoolId: string, send: Transport): (r: seq<Contact>)
    ensures var reply := send(Post(SubmitForm(s.tokens, stateId, distId, schoolId)));
      && (reply.None? ==> r == [])
      && (reply.Some? && FindTable(reply.value.page.tables, ContactTableId).None? ==> r == [])
      && (reply.Some? && FindTable(reply.value.page.tables, ContactTableId).Some? ==>
            r == TableContacts(FindTable(reply.value.page.tables, ContactTableId).value, stateName, distName))
    ensures forall c :: c in r ==> c.state == stateName && c.district == distName && Reachable(c)
  {
    match send(Post(SubmitForm(s.tokens, stateId, distId, schoolId)))
    case None => []
    case Some(resp) =>
      match FindTable(resp.page.tables, ContactTableId)
      case None => []
      case Some(table) => TableContacts(table, stateName, distName)
  }

  /**
   * `scrape_school_contacts`: as `ScrapeSchoolContactsReturn`, appending
   * the contacts to the scraper's records and returning how many there were.
   */
  function ScrapeSchoolContacts(s: Scraper, stateId: string, stateName: string, distId: string,
                                distName: string, schoolId: string, send: Transport): (r: Outcome<nat>)
    ensures r.scraper.tokens == s.tokens
    ensures r.scraper.data == s.data + ScrapeSchoolContactsReturn(s, stateId, stateName, distId, distName, schoolId, send)
    ensures r.result == |r.scraper.data| - |s.data|
  {
    var contacts := ScrapeSchoolContactsReturn(s, stateId, stateName, distId, distName, schoolId, send);
    Outcome(s.(data := s.data + contacts), |contacts|)
  }
}
