/** The client's API layer: how a request's reply becomes a value or an
    error, how endpoint strings are built, and the five-minute cache of the
    reference lists. The network is a parameter: a call is given the reply
    it receives. */
module ClientApi {
  import opened Wrappers
  import opened Text
  import opened JsValues

  // ---------------------------------------------------------------------------
  // Requests

  /** The body of a reply, as `response.json()` sees it. */
  datatype JsonBody = NotJson(parseError: string) | Json(data: Item)

  /** What `fetch` produces: a network failure or a reply. */
  datatype HttpReply = NetworkError(message: string) | Reply(ok: bool, status: int, body: JsonBody)

  datatype Outcome = Resolved(data: Item) | Rejected(message: string)

  datatype Loader = Shown | Hidden

  /** What a call of `API.request` leaves behind: its outcome, the toast it
      shows, and the loading indicator. */
  datatype RequestResult = RequestResult(outcome: Outcome, toast: Option<string>, loader: Loader)

  const ToastFallback := "Erro na comunicação com o servidor"

  /** The message of the error thrown for a reply that is not ok:
      `data.error || 'HTTP error! status: ' + status`. */
  function ErrorText(data: Item, status: int): (m: string)
    ensures m != ""
  {
    var e := Get(data, "error");
    if Truthy(e) then
      EmptyStringOnlyFromEmpty(e);
      ToJsString(e)
    else "HTTP error! status: " + IntToString(status)
  }

  /** `API.request(endpoint, options)` given the reply of `fetch`. */
  function Request(reply: HttpReply): (r: RequestResult)
    ensures r.loader == Hidden
    ensures r.outcome.Resolved? <==> reply.Reply? && reply.ok && reply.body.Json?
    ensures r.outcome.Resolved? ==> r.toast.None? && r.outcome.data == reply.body.data
    ensures r.outcome.Rejected? ==>
      r.toast == Some(if r.outcome.message == "" then ToastFallback else r.outcome.message)
  {
    var outcome :=
      match reply
      case NetworkError(m) => Rejected(m)
      case Reply(ok, status, body) =>
        match body
        case NotJson(m) => Rejected(m)
        case Json(data) => if ok then Resolved(data) else Rejected(ErrorText(data, status));
    var toast :=
      match outcome
      case Resolved(_) => None
      case Rejected(m) => Some(if m == "" then ToastFallback else m);
    RequestResult(outcome, toast, Hidden)
  }

  /** A rejected reply that carries an `error` text shows exactly that text;
      one without it shows the status code. */
  lemma RequestShowsServerError(data: Item, status: int)
    ensures var r := Request(Reply(false, status, Json(data)));
      && r.outcome.Rejected?
      && (Get(data, "error").JsStr? && Get(data, "error").s != "" ==> r.toast == Some(Get(data, "error").s))
      && (!Truthy(Get(data, "error")) ==> r.toast == Some("HTTP error! status: " + IntToString(status)))
  {
  }

  // ---------------------------------------------------------------------------
  // Endpoints

  const CronogramaPath := "/api/dashboard/cronograma-calibracoes"

  /** `getCronogramaCalibracoes(ano)`: the year is appended only when given. */
  function CronogramaEndpoint(ano: JsValue): (e: string)
    ensures !Truthy(ano) <==> e == CronogramaPath
    ensures Truthy(ano) ==> e == CronogramaPath + "?ano=" + ToJsString(ano)
  {
    if Truthy(ano) then CronogramaPath + "?ano=" + ToJsString(ano) else CronogramaPath
  }

  /** A parameter list as `URLSearchParams` holds it. */
  type QueryParams = seq<(string, string)>

  /** `new URLSearchParams(params).toString()`, with the percent-encoding of
      names and values given as `encode`. */
  function QueryString(params: QueryParams, encode: string -> string): (q: string)
    ensures |params| == 0 <==> q == ""
  {
    var parts := seq(|params|, i requires 0 <= i < |params| => encode(params[i].0) + "=" + encode(params[i].1));
    Join(parts, "&")
  }

  /** The endpoint of `EquipamentosAPI.listar` and `PontosMedicaoAPI.listar`:
      `'?'` and the query are appended only for a non-empty query. */
  function ListEndpoint(path: string, params: QueryParams, encode: string -> string): (e: string)
    ensures |params| == 0 <==> e == path
    ensures |params| > 0 ==> e == path + "?" + QueryString(params, encode)
  {
    var q := QueryString(params, encode);
    if q != "" then path + "?" + q else path
  }

  // ---------------------------------------------------------------------------
  // Cache of the reference lists

  /** The response of `/api/configuracoes/todas`: list name to its entries. */
  type Config = map<string, seq<Item>>

  /** Milliseconds a cached response stays fresh. */
  const CacheDuration := 5 * 60 * 1000

  /** `configuracoesCache` and `configuracoesCacheTime`. */
  datatype CacheState = CacheState(cache: Option<Config>, time: Option<int>)

  const EmptyCache := CacheState(None, None)

  /** What `ConfiguracoesAPI.obterTodas()` gives this call. */
  datatype FetchResult = FetchOk(config: Config) | FetchFailed

  /** The result of `getConfiguracoes`: the next state, the returned value and
      whether the network was asked. */
  datatype CacheStep = CacheStep(state: CacheState, value: Config, fetched: bool)

  /** The lists the server's `/todas` answers with. */
  const ServerLists: set<string> := {
    "fabricantes", "tipos_equipamento", "polos", "instalacoes", "unidades",
    "classificacoes_ponto_medicao", "naturezas_teste_analise", "status", "criterios_aceitacao"
  }

  /** The fallback `getConfiguracoes` returns when the first fetch fails. */
  const DefaultConfig: Config := map[
    "fabricantes" := [], "tipos_equipamento" := [], "polos" := [], "instalacoes" := [],
    "unidades" := [], "classificacoes_ponto_medicao" := [], "status" := [], "criterios_aceitacao" := []
  ]

  /** A cache entry is used when it exists, its time is truthy and it is
      less than five minutes old. */
  predicate Fresh(st: CacheState, now: int) {
    st.cache.Some? && st.time.Some? && st.time.value != 0 && now - st.time.value < CacheDuration
  }

  /** `getConfiguracoes(forceRefresh)` at time `now`. On success the time
      stored is the one read at the start of the call. */
  function GetConfiguracoes(st: CacheState, force: bool, now: int, fetch: FetchResult): (r: CacheStep)
    ensures !force && Fresh(st, now) ==> r == CacheStep(st, st.cache.value, false)
    ensures force || !Fresh(st, now) ==> r.fetched
    ensures r.fetched && fetch.FetchOk? ==> r == CacheStep(CacheState(Some(fetch.config), Some(now)), fetch.config, true)
    ensures r.fetched && fetch.FetchFailed? ==>
      r.state == st && r.value == (if st.cache.Some? then st.cache.value else DefaultConfig)
  {
    if !force && Fresh(st, now) then CacheStep(st, st.cache.value, false)
    else match fetch
      case FetchOk(c) => CacheStep(CacheState(Some(c), Some(now)), c, true)
      case FetchFailed => CacheStep(st, st.cache.GetOr(DefaultConfig), true)
  }

  /** A cache hit does not depend on what the network would have answered. */
  lemma CacheHitIgnoresNetwork(st: CacheState, now: int, f1: FetchResult, f2: FetchResult)
    requires Fresh(st, now)
    ensures GetConfiguracoes(st, false, now, f1) == GetConfiguracoes(st, false, now, f2)
  {
  }

  /** After a successful fetch at a non-zero time `t`, every unforced call in
      the next five minutes returns the fetched lists without fetching. */
  lemma FetchedStaysFresh(st: CacheState, force: bool, t: int, c: Config, later: int, f: FetchResult)
    requires t != 0 && t <= later < t + CacheDuration
    requires GetConfiguracoes(st, force, t, FetchOk(c)).fetched
    ensures GetConfiguracoes(GetConfiguracoes(st, force, t, FetchOk(c)).state, false, later, f) ==
      CacheStep(CacheState(Some(c), Some(t)), c, false)
  {
  }

  /** `invalidateConfiguracoesCache()`. */
  function Invalidate(st: CacheState): (r: CacheState)
    ensures forall now :: !Fresh(r, now)
  {
    EmptyCache
  }

  /** After an invalidation the next call fetches, and if that fetch fails
      it returns the fixed default. */
  lemma InvalidateForcesFetch(st: CacheState, force: bool, now: int, f: FetchResult)
    ensures var r := GetConfiguracoes(Invalidate(st), force, now, f);
      && r.fetched
      && (f.FetchFailed? ==> r.value == DefaultConfig && r.state == EmptyCache)
  {
  }

  /** The fallback holds eight of the nine lists the server sends: it
      lacks `naturezas_teste_analise`. */
  lemma DefaultMissesNaturezas()
    ensures "naturezas_teste_analise" in ServerLists
    ensures "naturezas_teste_analise" !in DefaultConfig
    ensures DefaultConfig.Keys < ServerLists
  {
  }
}
