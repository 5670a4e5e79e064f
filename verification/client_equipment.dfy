/** The equipment page of the client: filters read from and written to the
    address bar, the listing request's parameters, the page reset on a
    filter change, and the create/edit form with its validation and its
    `''`-to-`null` normalisation. The address bar's query is a map from
    parameter name to value. */
module ClientEquipment {
  import opened Wrappers
  import opened Text
  import opened JsValues
  import ClientApi
  import Values
  import Store
  import Equipment

  // ---------------------------------------------------------------------------
  // Filters and the address bar

  datatype Filters = Filters(search: string, fabricante: string, tipo: string)

  const NoFilters := Filters("", "", "")

  /** The query of the page's address, parameter name to value. */
  type UrlQuery = map<string, string>

  /** `urlParams[k] || ''`. */
  function UrlParam(url: UrlQuery, k: string): string {
    if k in url then url[k] else ""
  }

  /** `setupFilters`: each filter from the address, `''` when missing. */
  function FiltersFromUrl(url: UrlQuery): (f: Filters)
    ensures "search" !in url && "fabricante" !in url && "tipo" !in url ==> f == NoFilters
    ensures forall k :: k in url && k !in {"search", "fabricante", "tipo"} ==>
      f == FiltersFromUrl(url - {k})
  {
    Filters(UrlParam(url, "search"), UrlParam(url, "fabricante"), UrlParam(url, "tipo"))
  }

  /** Parameters as a JavaScript object lists them, in key order. */
  type Params = seq<(string, JsValue)>

  predicate HasKey(ps: Params, k: string) {
    exists i :: 0 <= i < |ps| && ps[i].0 == k
  }

  /** `updateURLParams(params)`: each truthy parameter is set to its string
      form, each falsy one is deleted, in order. */
  function UpdateUrlParams(url: UrlQuery, ps: Params): UrlQuery
    decreases |ps|
  {
    if |ps| == 0 then url
    else UpdateUrlParams(SetParam(url, ps[0].0, ps[0].1), ps[1..])
  }

  /** One step of `updateURLParams`. */
  function SetParam(url: UrlQuery, k: string, v: JsValue): (r: UrlQuery)
    ensures Truthy(v) ==> k in r && r[k] == ToJsString(v)
    ensures !Truthy(v) ==> k !in r
    ensures forall k' :: k' != k ==> (k' in r <==> k' in url) && (k' in url ==> r[k'] == url[k'])
  {
    if Truthy(v) then url[k := ToJsString(v)] else url - {k}
  }

  /** Parameters not listed are left as they were. */
  lemma {:induction false} UpdateUrlParamsKeeps(url: UrlQuery, ps: Params, k: string)
    requires !HasKey(ps, k)
    ensures var r := UpdateUrlParams(url, ps); (k in r <==> k in url) && (k in url ==> r[k] == url[k])
    decreases |ps|
  {
    if |ps| > 0 {
      var next := SetParam(url, ps[0].0, ps[0].1);
      forall j | 0 <= j < |ps[1..]|
        ensures ps[1..][j].0 != k
      {
        assert ps[1..][j] == ps[j + 1];
      }
      UpdateUrlParamsKeeps(next, ps[1..], k);
    }
  }

  /** Setting the parameters of `a + b` sets those of `a`, then those of `b`. */
  lemma {:induction false} UpdateUrlParamsAppend(url: UrlQuery, a: Params, b: Params)
    ensures UpdateUrlParams(url, a + b) == UpdateUrlParams(UpdateUrlParams(url, a), b)
    decreases |a|
  {
    if |a| > 0 {
      var next := SetParam(url, a[0].0, a[0].1);
      assert (a + b)[0] == a[0] && (a + b)[1..] == a[1..] + b;
      assert UpdateUrlParams(url, a + b) == UpdateUrlParams(next, a[1..] + b);
      assert UpdateUrlParams(url, a) == UpdateUrlParams(next, a[1..]);
      UpdateUrlParamsAppend(next, a[1..], b);
    } else {
      assert a + b == b;
    }
  }

  /** `if (value) params[key] = value`: the one-entry parameter list of a
      truthy value, none for a falsy one. */
  function IfTruthy(k: string, v: JsValue): (ps: Params)
    ensures |ps| <= 1
    ensures HasKey(ps, k) <==> Truthy(v)
    ensures forall k' :: HasKey(ps, k') ==> k' == k
    ensures forall i :: 0 <= i < |ps| ==> ps[i] == (k, v) && Truthy(v)
  {
    if Truthy(v) then
      assert [(k, v)][0].0 == k;
      [(k, v)]
    else []
  }

  /** `if (value) params[key] = value` followed by setting that parameter. */
  function SetIfTruthy(url: UrlQuery, k: string, v: JsValue): UrlQuery {
    if Truthy(v) then SetParam(url, k, v) else url
  }

  lemma UpdateOne(url: UrlQuery, k: string, v: JsValue)
    ensures UpdateUrlParams(url, IfTruthy(k, v)) == SetIfTruthy(url, k, v)
  {
    if Truthy(v) {
      assert IfTruthy(k, v)[1..] == [];
    }
  }

  /** The parameters `updateURL()` builds: the non-empty filters, then the
      page when past the first. */
  function UpdateUrlArgs(f: Filters, page: int): Params {
    IfTruthy("search", JsStr(f.search)) + IfTruthy("fabricante", JsStr(f.fabricante))
    + IfTruthy("tipo", JsStr(f.tipo)) + IfTruthy("page", if page > 1 then JsNum(page) else JsNull)
  }

  /** `updateURL()` as written. */
  function UpdateUrl(url: UrlQuery, f: Filters, page: int): UrlQuery {
    UpdateUrlParams(url, UpdateUrlArgs(f, page))
  }

  /** `updateURL()` is four single-parameter steps. */
  lemma UpdateUrlSteps(url: UrlQuery, f: Filters, page: int)
    ensures UpdateUrl(url, f, page) ==
      SetIfTruthy(SetIfTruthy(SetIfTruthy(SetIfTruthy(url, "search", JsStr(f.search)),
        "fabricante", JsStr(f.fabricante)), "tipo", JsStr(f.tipo)), "page", if page > 1 then JsNum(page) else JsNull)
  {
    var a, b, c := IfTruthy("search", JsStr(f.search)), IfTruthy("fabricante", JsStr(f.fabricante)),
      IfTruthy("tipo", JsStr(f.tipo));
    var d := IfTruthy("page", if page > 1 then JsNum(page) else JsNull);
    UpdateUrlParamsAppend(url, a, b);
    UpdateUrlParamsAppend(url, a + b, c);
    UpdateUrlParamsAppend(url, a + b + c, d);
    var u1 := SetIfTruthy(url, "search", JsStr(f.search));
    var u2 := SetIfTruthy(u1, "fabricante", JsStr(f.fabricante));
    var u3 := SetIfTruthy(u2, "tipo", JsStr(f.tipo));
    UpdateOne(url, "search", JsStr(f.search));
    UpdateOne(u1, "fabricante", JsStr(f.fabricante));
    UpdateOne(u2, "tipo", JsStr(f.tipo));
    UpdateOne(u3, "page", if page > 1 then JsNum(page) else JsNull);
  }

  /** What `updateURL()` writes: each non-empty filter and the page past the
      first; a cleared filter or a return to page 1 leaves the address's old
      value in place. */
  lemma UpdateUrlWrites(url: UrlQuery, f: Filters, page: int)
    ensures var r := UpdateUrl(url, f, page);
      && UrlParam(r, "search") == (if f.search != "" then f.search else UrlParam(url, "search"))
      && UrlParam(r, "fabricante") == (if f.fabricante != "" then f.fabricante else UrlParam(url, "fabricante"))
      && UrlParam(r, "tipo") == (if f.tipo != "" then f.tipo else UrlParam(url, "tipo"))
      && (page > 1 ==> "page" in r && r["page"] == IntToString(page))
      && (page <= 1 ==> ("page" in r <==> "page" in url) && ("page" in url ==> r["page"] == url["page"]))
  {
    UpdateUrlSteps(url, f, page);
  }

  /** Clearing the search box leaves the old search in the address, so
      reloading the page brings the cleared filter back. */
  lemma ClearedFilterComesBack()
    ensures FiltersFromUrl(UpdateUrl(map["search" := "bomba"], NoFilters, 1)) == Filters("bomba", "", "")
    ensures FiltersFromUrl(UpdateUrl(map["search" := "bomba"], NoFilters, 1)) != NoFilters
  {
    UpdateUrlWrites(map["search" := "bomba"], NoFilters, 1);
  }

  /** `updateURL()` with every filter and the page passed on, so that the
      empty ones are deleted. */
  function UpdateUrlIntended(url: UrlQuery, f: Filters, page: int): (r: UrlQuery)
    ensures FiltersFromUrl(r) == f
    ensures "search" in r <==> f.search != ""
    ensures "fabricante" in r <==> f.fabricante != ""
    ensures "tipo" in r <==> f.tipo != ""
    ensures "page" in r <==> page > 1
    ensures page > 1 ==> r["page"] == IntToString(page)
  {
    var a, b, c := [("search", JsStr(f.search))], [("fabricante", JsStr(f.fabricante))], [("tipo", JsStr(f.tipo))];
    var d := [("page", if page > 1 then JsNum(page) else JsNull)];
    UpdateUrlParamsAppend(url, a, b);
    UpdateUrlParamsAppend(url, a + b, c);
    UpdateUrlParamsAppend(url, a + b + c, d);
    var u1 := SetParam(url, "search", JsStr(f.search));
    var u2 := SetParam(u1, "fabricante", JsStr(f.fabricante));
    var u3 := SetParam(u2, "tipo", JsStr(f.tipo));
    assert UpdateUrlParams(url, a) == u1 && UpdateUrlParams(u1, b) == u2 && UpdateUrlParams(u2, c) == u3;
    assert UpdateUrlParams(u3, d) == SetParam(u3, "page", if page > 1 then JsNum(page) else JsNull);
    UpdateUrlParams(url, a + b + c + d)
  }

  /** Where every filter is set, the written code and the corrected one
      write the same values. */
  lemma UpdateUrlAgrees(url: UrlQuery, f: Filters, page: int)
    requires f.search != "" && f.fabricante != "" && f.tipo != "" && page > 1
    ensures FiltersFromUrl(UpdateUrl(url, f, page)) == FiltersFromUrl(UpdateUrlIntended(url, f, page))
    ensures UpdateUrl(url, f, page)["page"] == UpdateUrlIntended(url, f, page)["page"]
  {
    UpdateUrlWrites(url, f, page);
  }

  // ---------------------------------------------------------------------------
  // The listing request

  const ItemsPerPage := 20

  /** Keys of a concatenation are the keys of its parts. */
  lemma HasKeyAppend(a: Params, b: Params)
    ensures forall k :: HasKey(a + b, k) <==> HasKey(a, k) || HasKey(b, k)
    ensures (forall i :: 0 <= i < |a| ==> Truthy(a[i].1)) && (forall i :: 0 <= i < |b| ==> Truthy(b[i].1))
      ==> forall i :: 0 <= i < |a + b| ==> Truthy((a + b)[i].1)
  {
    forall k | HasKey(a + b, k)
      ensures HasKey(a, k) || HasKey(b, k)
    {
      var i :| 0 <= i < |a + b| && (a + b)[i].0 == k;
      if i >= |a| {
        assert b[i - |a|].0 == k;
      }
    }
    forall k | HasKey(b, k)
      ensures HasKey(a + b, k)
    {
      var i :| 0 <= i < |b| && b[i].0 == k;
      assert (a + b)[i + |a|].0 == k;
    }
    forall k | HasKey(a, k)
      ensures HasKey(a + b, k)
    {
      var i :| 0 <= i < |a| && a[i].0 == k;
      assert (a + b)[i].0 == k;
    }
  }

  /** `loadData`'s parameters: the five of the listing, then every falsy one
      removed. */
  function LoadParams(page: int, f: Filters): (ps: Params)
    ensures forall i :: 0 <= i < |ps| ==> Truthy(ps[i].1)
    ensures HasKey(ps, "page") <==> page != 0
    ensures HasKey(ps, "per_page")
    ensures HasKey(ps, "search") <==> f.search != ""
    ensures HasKey(ps, "fabricante_id") <==> f.fabricante != ""
    ensures HasKey(ps, "tipo_equipamento_id") <==> f.tipo != ""
    ensures page != 0 ==> ps[0] == ("page", JsNum(page))
  {
    var a, b, c := IfTruthy("page", JsNum(page)), IfTruthy("per_page", JsNum(ItemsPerPage)),
      IfTruthy("search", JsStr(f.search));
    var d, e := IfTruthy("fabricante_id", JsStr(f.fabricante)), IfTruthy("tipo_equipamento_id", JsStr(f.tipo));
    HasKeyAppend(a, b);
    HasKeyAppend(a + b, c);
    HasKeyAppend(a + b + c, d);
    HasKeyAppend(a + b + c + d, e);
    a + b + c + d + e
  }

  /** The list query `loadData` sends: parameter values as strings. */
  function LoadQuery(page: int, f: Filters): (q: ClientApi.QueryParams)
    ensures |q| == |LoadParams(page, f)|
  {
    var ps := LoadParams(page, f);
    seq(|ps|, i requires 0 <= i < |ps| => (ps[i].0, ToJsString(ps[i].1)))
  }

  /** The listing endpoint always carries a query, because the page size is
      never dropped. */
  lemma ListingHasQuery(page: int, f: Filters, encode: string -> string)
    ensures ClientApi.ListEndpoint("/api/equipamentos", LoadQuery(page, f), encode) != "/api/equipamentos"
  {
    var ps := LoadParams(page, f);
    assert HasKey(ps, "per_page");
  }

  /** The page's listing state. */
  datatype ListState = ListState(filters: Filters, currentPage: int, totalPages: int, data: seq<Item>)

  /** A filter control changed: `applyFilters` first sets the page to 1, so
      the request that follows asks for the first page. */
  function ApplyFilters(st: ListState, f: Filters): (r: ListState)
    ensures r.currentPage == 1 && r.filters == f
    ensures r.totalPages == st.totalPages && r.data == st.data
  {
    st.(filters := f, currentPage := 1)
  }

  /** What the listing request returned: `None` when it failed. */
  datatype ListReply = ListReply(equipamentos: Option<seq<Item>>, pages: int, currentPage: int)

  /** The state `loadData` leaves: the reply's rows, page count and page,
      each falling back (`|| []`, `|| 1`) when missing or zero; on failure an
      empty table and one page, the current page untouched. */
  function LoadData(st: ListState, reply: Option<ListReply>): (r: ListState)
    ensures r.filters == st.filters
    ensures reply.None? ==> r.data == [] && r.totalPages == 1 && r.currentPage == st.currentPage
    ensures reply.Some? ==> r.totalPages == (if reply.value.pages == 0 then 1 else reply.value.pages)
    ensures reply.Some? ==> r.currentPage == (if reply.value.currentPage == 0 then 1 else reply.value.currentPage)
    ensures reply.Some? && reply.value.pages >= 0 ==> r.totalPages >= 1
  {
    match reply
    case None => st.(data := [], totalPages := 1)
    case Some(rep) =>
      st.(data := rep.equipamentos.GetOr([]),
          totalPages := if rep.pages == 0 then 1 else rep.pages,
          currentPage := if rep.currentPage == 0 then 1 else rep.currentPage)
  }

  // ---------------------------------------------------------------------------
  // The create/edit form

  /** The form's controls, name to current value. */
  type Form = map<string, string>

  const SerialField := "numero_serie"
  const NameField := "nome_equipamento"

  /** `validateForm` with the two required rules: a present control whose
      trimmed value is empty fails; a missing control is skipped. */
  predicate FormValid(form: Form) {
    && (SerialField in form ==> JsTrim(form[SerialField]) != "")
    && (NameField in form ==> JsTrim(form[NameField]) != "")
  }

  /** `getFormData` followed by the `''`-to-`null` loop. */
  function Normalise(form: Form): (body: Item)
    ensures body.Keys == form.Keys
    ensures forall k :: k in form ==> (body[k] == JsNull <==> form[k] == "")
    ensures forall k :: k in form && form[k] != "" ==> body[k] == JsStr(form[k])
  {
    map k | k in form :: if form[k] == "" then JsNull else JsStr(form[k])
  }

  datatype ApiCall = Post(endpoint: string, body: Item) | Put(endpoint: string, body: Item)

  /** `handleFormSubmit`: nothing is sent when validation fails; mode
      `'create'` posts, any other mode puts to the stored serial. */
  function Submit(mode: string, serial: string, form: Form): (r: Option<ApiCall>)
    ensures r.None? <==> !FormValid(form)
    ensures r.Some? ==> r.value.body == Normalise(form)
    ensures r.Some? ==> (r.value.Post? <==> mode == "create")
    ensures r.Some? && r.value.Post? ==> r.value.endpoint == "/api/equipamentos"
    ensures r.Some? && r.value.Put? ==> r.value.endpoint == "/api/equipamentos/" + serial
  {
    if !FormValid(form) then None
    else if mode == "create" then Some(Post("/api/equipamentos", Normalise(form)))
    else Some(Put("/api/equipamentos/" + serial, Normalise(form)))
  }

  /** The server's reading of `JSON.stringify(body)`: a property holding
      `undefined` is left out of the text, `true` and `false` arrive as
      Python booleans, which behave as 1 and 0. Every value keeps its
      truthiness. */
  function ToPayload(body: Item): (p: Values.Payload)
    ensures p.Keys == set k | k in body && body[k] != Undefined
    ensures forall k :: k in p ==> (Values.Truthy(p[k]) <==> Truthy(body[k]))
    ensures forall k :: k in p ==> (p[k] == Values.Null <==> body[k] == JsNull)
  {
    map k | k in body && body[k] != Undefined :: match body[k]
      case JsStr(s) => Values.Str(s)
      case JsNum(n) => Values.Int(n)
      case JsBool(b) => Values.Int(if b then 1 else 0)
      case _ => Values.Null
  }

  /** Blanking a field in the edit form clears it on the server: the field
      is sent as `null`, and the update's merge writes a present `null`. */
  lemma BlankedFieldCleared(db: Store.Db, serial: string, form: Form, k: string)
    requires FormValid(form) && k in form && form[k] == "" && k in Equipment.EquipCols
    requires Equipment.Update(db, serial, ToPayload(Normalise(form))).status == 200
    ensures var p := ToPayload(Submit("edit", serial, form).value.body);
      var i := Store.Find(db.equipamentos, Store.Serial, Values.Str(serial)).value;
      Store.Col(Equipment.Update(db, serial, p).db.equipamentos[i], k) == Values.Null
  {
    var p := ToPayload(Normalise(form));
    assert p[k] == Values.Null;
  }

  /** What `openModal` leaves: whether the modal shows, whether the serial
      control is read-only, and the mode and serial stored on the form. */
  datatype Modal = Modal(shown: bool, serialReadOnly: bool, mode: string, serial: string)

  /** `openModal(mode, numeroSerie)`, given whether loading the record for
      editing succeeded. A failed load returns before anything is stored. */
  function OpenModal(prev: Modal, mode: string, serial: string, loaded: bool): (r: Modal)
    ensures mode == "edit" && serial != "" && !loaded ==> r == prev
    ensures mode == "edit" && serial != "" && loaded ==> r == Modal(true, true, "edit", serial)
    ensures !(mode == "edit" && serial != "") ==> r == Modal(true, false, mode, serial)
  {
    if mode == "edit" && serial != "" then
      if loaded then Modal(true, true, mode, serial) else prev
    else Modal(true, false, mode, serial)
  }

  /** A form opened for editing sends its update to the record it loaded,
      with the serial control locked; one opened for creating posts a new
      record with the serial control editable. */
  lemma ModalDecidesCall(prev: Modal, mode: string, serial: string, form: Form)
    requires FormValid(form) && mode in {"create", "edit"} && (mode == "edit" ==> serial != "")
    ensures var m := OpenModal(prev, mode, serial, true);
      var call := Submit(m.mode, m.serial, form).value;
      && (mode == "edit" ==> m.serialReadOnly && call == Put("/api/equipamentos/" + serial, Normalise(form)))
      && (mode == "create" ==> !m.serialReadOnly && call == Post("/api/equipamentos", Normalise(form)))
  {
  }
}
