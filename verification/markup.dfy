/**
 * The fragment parser above the HTML parser: what `extract_viewstate_from_html`,
 * `extract_dropdown_from_delta` and the row loop of
 * `scrape_school_contacts_return` take out of an already parsed page. The
 * HTML parser itself is not modelled; a `Page` is its output, the elements
 * of interest in document order.
 */
module Markup {
  import opened Wrappers
  import opened Text
  import opened Dicts
  import opened Delta

  /** An `<input>`: its `name` and `value` attributes, when present. */
  datatype InputElem = InputElem(name: Option<string>, value: Option<string>)

  /** An `<option>`: its `value` attribute when present, and its text. */
  datatype OptionElem = OptionElem(value: Option<string>, text: string)

  /** A `<select>`: its `id` attribute when present, and its options. */
  datatype SelectElem = SelectElem(id: Option<string>, options: seq<OptionElem>)

  /** A `<table>`: its `id` when present and, per `<tr>`, the text of each `<td>`. */
  datatype TableElem = TableElem(id: Option<string>, rows: seq<seq<string>>)

  datatype Page = Page(inputs: seq<InputElem>, selects: seq<SelectElem>, tables: seq<TableElem>)

  /**
   * `soup.find(...)`: the position of the first element, in document order,
   * that matches `p`, or `None` when no element does.
   */
  function FindFirst<T>(xs: seq<T>, p: T -> bool): (r: Option<nat>)
    ensures r.Some? ==> r.value < |xs| && p(xs[r.value])
    ensures r.Some? ==> forall i :: 0 <= i < r.value ==> !p(xs[i])
    ensures r.None? ==> forall i :: 0 <= i < |xs| ==> !p(xs[i])
  {
    if |xs| == 0 then None
    else if p(xs[0]) then Some(0)
    else match FindFirst(xs[1..], p)
      case None => None
      case Some(i) => Some(i + 1)
  }

  // ---------------------------------------------------------------------
  // Hidden inputs of the full page

  /** `soup.find("input", {"name": name})`: the first input with that name. */
  function FindInput(inputs: seq<InputElem>, name: string): Option<nat> {
    FindFirst(inputs, (e: InputElem) => e.name == Some(name))
  }

  /**
   * `soup.find(...)["value"]`: the value of the first input with that name.
   * A missing input (`TypeError`) and a first input without a value
   * (`KeyError`) both fail, even when a later input has a value.
   */
  function HiddenValue(inputs: seq<InputElem>, name: string): Option<string> {
    match FindInput(inputs, name)
    case None => None
    case Some(i) => inputs[i].value
  }

  /** `extract_viewstate_from_html`: the three tokens, or failure (`ValueError`). */
  function ExtractViewstateFromHtml(page: Page): (r: Option<Tokens>)
    ensures r.Some? <==>
              && HiddenValue(page.inputs, ViewStateName).Some?
              && HiddenValue(page.inputs, EventValidationName).Some?
              && HiddenValue(page.inputs, GeneratorName).Some?
    ensures r.Some? ==>
              && Some(r.value.viewstate) == HiddenValue(page.inputs, ViewStateName)
              && Some(r.value.eventValidation) == HiddenValue(page.inputs, EventValidationName)
              && Some(r.value.viewStateGenerator) == HiddenValue(page.inputs, GeneratorName)
  {
    match (HiddenValue(page.inputs, ViewStateName),
           HiddenValue(page.inputs, EventValidationName),
           HiddenValue(page.inputs, GeneratorName))
    case (Some(vs), Some(ev), Some(gen)) => Some(Tokens(vs, ev, gen))
    case _ => None
  }

  /**
   * A page that carries the three hidden inputs, with values, ahead of any
   * other input of the same names, yields exactly those three values.
   */
  lemma ViewstateFromHiddenInputs(vs: string, ev: string, gen: string, rest: seq<InputElem>,
                                   selects: seq<SelectElem>, tables: seq<TableElem>)
    ensures ExtractViewstateFromHtml(Page(
              [InputElem(Some(ViewStateName), Some(vs)),
               InputElem(Some(EventValidationName), Some(ev)),
               InputElem(Some(GeneratorName), Some(gen))] + rest, selects, tables))
            == Some(Tokens(vs, ev, gen))
  {
    var ins := [InputElem(Some(ViewStateName), Some(vs)),
                InputElem(Some(EventValidationName), Some(ev)),
                InputElem(Some(GeneratorName), Some(gen))] + rest;
    assert |ViewStateName| == 11 && |EventValidationName| == 17 && |GeneratorName| == 20;
    assert FindInput(ins, ViewStateName) == Some(0);
    assert FindInput(ins[1..], EventValidationName) == Some(0);
    assert FindInput(ins, EventValidationName) == Some(1);
    assert FindInput(ins[1..][1..], GeneratorName) == Some(0);
    assert FindInput(ins[1..], GeneratorName) == Some(1);
    assert FindInput(ins, GeneratorName) == Some(2);
  }

  // ---------------------------------------------------------------------
  // Dropdowns of a delta response

  /** `soup.find("select", {"id": id})`: the first select with that id. */
  function FindSelect(selects: seq<SelectElem>, id: string): Option<SelectElem> {
    match FindFirst(selects, (e: SelectElem) => e.id == Some(id))
    case None => None
    case Some(i) => Some(selects[i])
  }

  /** `option.get("value", "")`. */
  function OptionValue(o: OptionElem): string {
    o.value.GetOr("")
  }

  /** `option.text.strip()`. */
  function OptionLabel(o: OptionElem): string {
    Strip(o.text)
  }

  /** An option survives the filter: non-empty value other than `"0"`, non-blank label. */
  predicate Kept(o: OptionElem) {
    OptionValue(o) != "" && OptionValue(o) != "0" && OptionLabel(o) != ""
  }

  /** The loop `options[value] = label` over the surviving options, in order. */
  function DropdownOptions(opts: seq<OptionElem>): (r: Dict)
    ensures UniqueKeys(r)
    ensures forall i :: 0 <= i < |r| ==> r[i].0 != "" && r[i].0 != "0"
    ensures forall i :: 0 <= i < |r| ==> r[i].1 != "" && Trimmed(r[i].1)
  {
    if |opts| == 0 then []
    else
      var acc := DropdownOptions(opts[..|opts| - 1]);
      var o := opts[|opts| - 1];
      if Kept(o) then
        var r := Put(acc, OptionValue(o), OptionLabel(o));
        forall i | 0 <= i < |r| ensures r[i].0 != "" && r[i].0 != "0" && r[i].1 != "" && Trimmed(r[i].1) {
          GetEntry(r, i);
          if r[i].0 != OptionValue(o) {
            var j :| 0 <= j < |acc| && acc[j].0 == r[i].0;
            GetEntry(acc, j);
          }
        }
        r
      else acc
  }

  /** Option `o` survives the filter and has value `k`. */
  predicate KeptWith(o: OptionElem, k: string) {
    Kept(o) && OptionValue(o) == k
  }

  /** Option `i` is the last surviving option whose value is `k`. */
  ghost predicate LastKept(opts: seq<OptionElem>, k: string, i: int) {
    && 0 <= i < |opts|
    && KeptWith(opts[i], k)
    && forall j :: i < j < |opts| ==> !KeptWith(opts[j], k)
  }

  ghost predicate SomeKept(opts: seq<OptionElem>, k: string) {
    exists i :: 0 <= i < |opts| && KeptWith(opts[i], k)
  }

  /** One more option either sets its own key or leaves the map as it was. */
  lemma DropdownOptionsStep(opts: seq<OptionElem>, k: string)
    requires |opts| > 0
    ensures var o := opts[|opts| - 1];
            Get(DropdownOptions(opts), k)
            == if KeptWith(o, k) then Some(OptionLabel(o)) else Get(DropdownOptions(opts[..|opts| - 1]), k)
  {
  }

  lemma SomeKeptStep(opts: seq<OptionElem>, k: string)
    requires |opts| > 0
    ensures SomeKept(opts, k) <==> KeptWith(opts[|opts| - 1], k) || SomeKept(opts[..|opts| - 1], k)
  {
    var n := |opts| - 1;
    var init := opts[..n];
    if SomeKept(opts, k) && !KeptWith(opts[n], k) {
      var i :| 0 <= i < |opts| && KeptWith(opts[i], k);
      assert init[i] == opts[i];
      assert SomeKept(init, k);
    }
    if SomeKept(init, k) {
      var i :| 0 <= i < |init| && KeptWith(init[i], k);
      assert opts[i] == init[i];
    }
  }

  lemma LastKeptInit(opts: seq<OptionElem>, k: string, i: int)
    requires |opts| > 0 && !KeptWith(opts[|opts| - 1], k) && LastKept(opts, k, i)
    ensures LastKept(opts[..|opts| - 1], k, i)
  {
    assert i != |opts| - 1;
    assert opts[..|opts| - 1][i] == opts[i];
  }

  /**
   * The option map holds a key exactly when some surviving option has that
   * value, and the label is that of the last such option: a later duplicate
   * overwrites an earlier one.
   */
  lemma {:induction false} DropdownOptionsMeaning(opts: seq<OptionElem>, k: string)
    ensures Get(DropdownOptions(opts), k).Some? <==> SomeKept(opts, k)
    ensures forall i :: LastKept(opts, k, i) ==> Get(DropdownOptions(opts), k) == Some(OptionLabel(opts[i]))
  {
    if |opts| > 0 {
      var n := |opts| - 1;
      DropdownOptionsMeaning(opts[..n], k);
      DropdownOptionsStep(opts, k);
      SomeKeptStep(opts, k);
      if !KeptWith(opts[n], k) {
        forall i | LastKept(opts, k, i) ensures LastKept(opts[..n], k, i) {
          LastKeptInit(opts, k, i);
        }
      }
    }
  }

  /** The values of the surviving options, in option order, repeats included. */
  function KeptValues(opts: seq<OptionElem>): seq<string> {
    if |opts| == 0 then []
    else
      var o := opts[|opts| - 1];
      KeptValues(opts[..|opts| - 1]) + if Kept(o) then [OptionValue(o)] else []
  }

  /** Each element of `s` once, at the place where it first occurs. */
  function FirstOccurrences<T(==)>(s: seq<T>): seq<T> {
    if |s| == 0 then []
    else
      var init := s[..|s| - 1];
      FirstOccurrences(init) + if s[|s| - 1] in init then [] else [s[|s| - 1]]
  }

  lemma {:induction false} KeptValuesMember(opts: seq<OptionElem>, k: string)
    ensures k in KeptValues(opts) <==> SomeKept(opts, k)
  {
    if |opts| > 0 {
      KeptValuesMember(opts[..|opts| - 1], k);
      SomeKeptStep(opts, k);
    }
  }

  /**
   * The keys of the option map come in the order of their first surviving
   * option: a later duplicate overwrites the label but keeps the key's place.
   */
  lemma {:induction false} DropdownKeyOrder(opts: seq<OptionElem>)
    ensures Keys(DropdownOptions(opts)) == FirstOccurrences(KeptValues(opts))
  {
    if |opts| > 0 {
      var n := |opts| - 1;
      var o := opts[n];
      var init := opts[..n];
      var ks := KeptValues(init);
      DropdownKeyOrder(init);
      if Kept(o) {
        var v := OptionValue(o);
        DropdownOptionsMeaning(init, v);
        KeptValuesMember(init, v);
        assert KeptValues(opts) == ks + [v];
        assert (ks + [v])[..|ks|] == ks;
        assert FirstOccurrences(ks + [v]) == FirstOccurrences(ks) + if v in ks then [] else [v];
      } else {
        assert KeptValues(opts) == ks;
      }
    }
  }

  /** `extract_dropdown_from_delta`: a missing dropdown gives an empty map. */
  function ExtractDropdownFromDelta(page: Page, id: string): (r: Dict)
    ensures FindSelect(page.selects, id).None? ==> r == []
    ensures FindSelect(page.selects, id).Some? ==> r == DropdownOptions(FindSelect(page.selects, id).value.options)
  {
    match FindSelect(page.selects, id)
    case None => []
    case Some(s) => DropdownOptions(s.options)
  }

  /** The placeholder option is dropped and a real one kept. */
  lemma PlaceholderDropped()
    ensures DropdownOptions([OptionElem(Some("0"), "--Select--"), OptionElem(Some("5"), "Alpha")])
            == [("5", "Alpha")]
  {
    var opts := [OptionElem(Some("0"), "--Select--"), OptionElem(Some("5"), "Alpha")];
    assert opts[..1] == [opts[0]];
    assert [opts[0]][..0] == [];
    assert !Kept(opts[0]);
    StripTrimmed("Alpha");
    assert Kept(opts[1]) && OptionLabel(opts[1]) == "Alpha";
  }

  // ---------------------------------------------------------------------
  // Contact rows of the submit response

  /** One row of the contact table, as the dictionary `contact_data`. */
  datatype Contact = Contact(state: string, district: string, school: string, name: string,
                             mobile: string, email: string, applicationNumber: string)

  /** `soup.find("table", id=id)`: the first table with that id. */
  function FindTable(tables: seq<TableElem>, id: string): Option<TableElem> {
    match FindFirst(tables, (e: TableElem) => e.id == Some(id))
    case None => None
    case Some(i) => Some(tables[i])
  }

  /** `[cell.text.strip() for cell in row.find_all("td")]`. */
  function StripCells(row: seq<string>): (cols: seq<string>)
    ensures |cols| == |row|
    ensures forall i :: 0 <= i < |row| ==> cols[i] == Strip(row[i])
  {
    if |row| == 0 then [] else [Strip(row[0])] + StripCells(row[1..])
  }

  /** At least one of the contact fields is non-empty. */
  predicate Reachable(c: Contact) {
    c.name != "" || c.mobile != "" || c.email != ""
  }

  /**
   * The record a data row stands for: kept exactly when the row has the six
   * cells and its name, mobile or email cell is not blank.
   */
  function RowContact(row: seq<string>, stateName: string, distName: string): Option<Contact> {
    var cols := StripCells(row);
    if |cols| >= 6 then
      var c := Contact(stateName, distName, cols[1], cols[2], cols[3], cols[4], cols[5]);
      if Reachable(c) then Some(c) else None
    else None
  }

  /**
   * The fields of a kept record: state and district from the arguments, the
   * rest from cells 1 to 5, stripped.
   */
  lemma RowContactFields(row: seq<string>, stateName: string, distName: string)
    ensures RowContact(row, stateName, distName).Some? <==>
              |row| >= 6 && (Strip(row[2]) != "" || Strip(row[3]) != "" || Strip(row[4]) != "")
    ensures RowContact(row, stateName, distName).Some? ==>
              RowContact(row, stateName, distName).value
              == Contact(stateName, distName, Strip(row[1]), Strip(row[2]),
                         Strip(row[3]), Strip(row[4]), Strip(row[5]))
  {
  }

  /** The values `f` reads from `xs`, in order, skipping the elements it rejects. */
  function Collect<T, U>(xs: seq<T>, f: T -> Option<U>): (r: seq<U>)
    ensures |r| <= |xs|
  {
    if |xs| == 0 then []
    else (if f(xs[0]).Some? then [f(xs[0]).value] else []) + Collect(xs[1..], f)
  }

  /** Collecting distributes over concatenation: each element contributes on its own. */
  lemma {:induction false} CollectAppend<T, U>(a: seq<T>, b: seq<T>, f: T -> Option<U>)
    ensures Collect(a + b, f) == Collect(a, f) + Collect(b, f)
  {
    if |a| > 0 {
      var hs := if f(a[0]).Some? then [f(a[0]).value] else [];
      assert (a + b)[0] == a[0];
      assert (a + b)[1..] == a[1..] + b;
      CollectAppend(a[1..], b, f);
      assert Collect(a + b, f) == hs + (Collect(a[1..], f) + Collect(b, f));
    } else {
      assert a + b == b;
    }
  }

  /** A value is collected exactly when `f` reads it from some element. */
  lemma {:induction false} CollectMembership<T, U>(xs: seq<T>, f: T -> Option<U>, y: U)
    ensures y in Collect(xs, f) <==> exists i :: 0 <= i < |xs| && f(xs[i]) == Some(y)
  {
    if |xs| > 0 {
      var hs := if f(xs[0]).Some? then [f(xs[0]).value] else [];
      var tail := xs[1..];
      assert Collect(xs, f) == hs + Collect(tail, f);
      CollectMembership(tail, f, y);
      if y in Collect(xs, f) {
        if y in hs {
          assert f(xs[0]) == Some(y);
        } else {
          var i :| 0 <= i < |tail| && f(tail[i]) == Some(y);
          assert xs[i + 1] == tail[i];
        }
      }
      if exists i :: 0 <= i < |xs| && f(xs[i]) == Some(y) {
        var i :| 0 <= i < |xs| && f(xs[i]) == Some(y);
        if i > 0 {
          assert tail[i - 1] == xs[i];
        }
      }
    }
  }

  /** The row reader of one district's table. */
  function RowReader(stateName: string, distName: string): seq<string> -> Option<Contact>
  {
    row => RowContact(row, stateName, distName)
  }

  /** The records of a sequence of data rows, in row order. */
  function RowsContacts(rows: seq<seq<string>>, stateName: string, distName: string): (r: seq<Contact>)
    ensures |r| <= |rows|
  {
    Collect(rows, RowReader(stateName, distName))
  }

  /** Row extraction distributes over concatenation: each row contributes on its own. */
  lemma RowsContactsAppend(a: seq<seq<string>>, b: seq<seq<string>>, stateName: string, distName: string)
    ensures RowsContacts(a + b, stateName, distName)
            == RowsContacts(a, stateName, distName) + RowsContacts(b, stateName, distName)
  {
    CollectAppend(a, b, RowReader(stateName, distName));
  }

  /** A record is extracted exactly when some data row stands for it. */
  lemma RowsContactsMembership(rows: seq<seq<string>>, stateName: string, distName: string, c: Contact)
    ensures c in RowsContacts(rows, stateName, distName) <==>
              exists i :: 0 <= i < |rows| && RowContact(rows[i], stateName, distName) == Some(c)
  {
    var f := RowReader(stateName, distName);
    CollectMembership(rows, f, c);
    forall i | 0 <= i < |rows|
      ensures f(rows[i]) == RowContact(rows[i], stateName, distName)
    {
    }
  }

  /** Every contact of a table carries the state and district it was read for and a way to reach someone. */
  lemma RowsContactsBelong(rows: seq<seq<string>>, stateName: string, distName: string)
    ensures forall c :: c in RowsContacts(rows, stateName, distName) ==>
              c.state == stateName && c.district == distName && Reachable(c)
  {
    forall c | c in RowsContacts(rows, stateName, distName)
      ensures c.state == stateName && c.district == distName && Reachable(c)
    {
      RowsContactsMembership(rows, stateName, distName, c);
      var i :| 0 <= i < |rows| && RowContact(rows[i], stateName, distName) == Some(c);
      RowContactFields(rows[i], stateName, distName);
    }
  }

  /**
   * The records of a contact table: the header row is skipped (`rows[1:]`,
   * empty for an empty table).
   */
  function TableContacts(t: TableElem, stateName: string, distName: string): (r: seq<Contact>)
    ensures |t.rows| <= 1 ==> r == []
    ensures |t.rows| > 1 ==> r == RowsContacts(t.rows[1..], stateName, distName)
    ensures forall c :: c in r ==> c.state == stateName && c.district == distName && Reachable(c)
  {
    RowsContactsBelong(if |t.rows| == 0 then [] else t.rows[1..], stateName, distName);
    RowsContacts(if |t.rows| == 0 then [] else t.rows[1..], stateName, distName)
  }

  /** A one-row table yields that row's record, if it has one. */
  lemma RowsContactsSingle(row: seq<string>, stateName: string, distName: string)
    ensures RowsContacts([row], stateName, distName)
            == (var h := RowContact(row, stateName, distName); if h.Some? then [h.value] else [])
  {
    assert [row][1..] == [];
  }

  /** A row whose name, mobile and e-mail cells are all blank is dropped. */
  lemma BlankContactRowDropped(id: string, school: string, name: string, mobile: string, email: string,
                               appId: string, stateName: string, distName: string)
    requires AllSpace(name) && AllSpace(mobile) && AllSpace(email)
    ensures RowsContacts([[id, school, name, mobile, email, appId]], stateName, distName) == []
  {
    var row := [id, school, name, mobile, email, appId];
    RowsContactsSingle(row, stateName, distName);
    RowContactFields(row, stateName, distName);
  }

  /** A row whose only contact is a mobile number is kept, its cells mapped by position. */
  lemma MobileOnlyRowKept(id: string, school: string, mobile: string, appId: string,
                          stateName: string, distName: string)
    requires Trimmed(school) && Trimmed(mobile) && Trimmed(appId) && mobile != ""
    ensures RowsContacts([[id, school, "", mobile, "", appId]], stateName, distName)
            == [Contact(stateName, distName, school, "", mobile, "", appId)]
  {
    var row := [id, school, "", mobile, "", appId];
    RowsContactsSingle(row, stateName, distName);
    RowContactFields(row, stateName, distName);
    StripTrimmed(school);
    StripTrimmed(mobile);
    StripTrimmed(appId);
    StripTrimmed("");
  }
}
