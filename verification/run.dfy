/** Preparing a fetch: query parameters have their template calls evaluated,
    then the pagination style picks the fetcher. The substitution is a
    parameter `subst`, which the job sets to `Substitution(today)`. The
    fetchers themselves (HTTP paging, retries, writing pages) are a parameter
    `fetch` that receives everything the code hands them. */
module Run {

  import opened Wrappers
  import opened Errors
  import opened Strings
  import Dates
  import Template

  datatype FetchOpts = FetchOpts(concurrency: nat, defaultPageSize: nat, fetchBatchSize: nat)

  datatype QueryParam = QueryParam(key: string, value: string)

  datatype Pagination =
    | LimitOffset(limitParam: string, offsetParam: string)
    | PageNumber(pageParam: string, perPageParam: string)
    | PageOnly(pageParam: string)
    | Cursor(cursorParam: string, pageSizeParam: string)
    | Default

  datatype WriteMode = Merge | Append

  /** The parts of `FetchRequest` the preparation reads; the HTTP client,
      URL and retry policy go to the fetcher unchanged and are not modelled. */
  datatype FetchRequest = FetchRequest(
    dataPath: Option<string>,
    extraParams: Option<seq<QueryParam>>,
    pagination: Option<Pagination>)

  datatype QueryConfig = QueryConfig(sql: string, destTable: string)

  /** What a fetcher is built with and called with. */
  datatype FetchCall =
    | LimitOffsetFetch(limitParam: string, offsetParam: string, pageSize: nat,
                       dataPath: Option<string>, params: seq<(string, string)>, writeMode: WriteMode)
    | PageNumberFetch(pageParam: string, perPageParam: string, perPage: nat,
                      dataPath: Option<string>, writeMode: WriteMode)

  datatype FetchPlan = FetchPlan(concurrency: nat, batchSize: nat, query: QueryConfig, call: FetchCall)

  datatype FetchStats = FetchStats(totalItems: nat)

  /** `FetchStats::new()`. */
  const NoStats: FetchStats := FetchStats(0)

  // ---- clean_param ----

  /** Map `subst` over the parameter values, keeping keys and order; the
      first value that fails is the result. */
  function CleanAll(ps: seq<QueryParam>, subst: string -> Result<string>): (r: Result<seq<(string, string)>>)
    ensures r.Ok? ==> |r.value| == |ps|
    ensures r.Ok? ==> forall i | 0 <= i < |ps| :: subst(ps[i].value) == Ok(r.value[i].1) && r.value[i].0 == ps[i].key
    decreases |ps|
  {
    if |ps| == 0 then Ok([])
    else
      match subst(ps[0].value)
      case Err(e) => Err(e)
      case Ok(v) =>
        match CleanAll(ps[1..], subst)
        case Err(e) => Err(e)
        case Ok(rest) =>
          var r := [(ps[0].key, v)] + rest;
          assert forall i | 0 < i < |ps| :: ps[i] == ps[1..][i - 1] && r[i] == rest[i - 1];
          Ok(r)
  }

  /** The template substitution with the clock fixed at `today`. */
  function Substitution(today: int): string -> Result<string>
    requires Dates.InRange(today)
  {
    v => Template.SubstituteTemplates(v, today)
  }

  /** `clean_param`, with the substitution it applies as a parameter:
      `Substitution(today)` in the running program. */
  function CleanParam(params: Option<seq<QueryParam>>, subst: string -> Result<string>): Result<seq<(string, string)>> {
    match params
    case None => Ok([])
    case Some(ps) => CleanAll(ps, subst)
  }

  /** Parameter `i` is the first whose value fails, with error `e`. */
  ghost predicate LeftmostFailure(ps: seq<QueryParam>, subst: string -> Result<string>, e: ApitapError) {
    exists i | 0 <= i < |ps| ::
      (subst(ps[i].value) == Err(e) && forall j | 0 <= j < i :: subst(ps[j].value).Ok?)
  }

  /** Cleaning fails exactly when some value's substitution fails, and then
      with the error of the leftmost one. */
  lemma {:induction false} CleanAllFails(ps: seq<QueryParam>, subst: string -> Result<string>)
    ensures var r := CleanAll(ps, subst);
      && (r.Ok? <==> forall i | 0 <= i < |ps| :: subst(ps[i].value).Ok?)
      && (r.Err? ==> LeftmostFailure(ps, subst, r.error))
    decreases |ps|
  {
    if |ps| > 0 {
      CleanAllFails(ps[1..], subst);
      var tail := ps[1..];
      assert forall i | 0 < i < |ps| :: ps[i] == tail[i - 1];
      var r := CleanAll(ps, subst);
      if r.Err? && subst(ps[0].value).Ok? {
        var i :| 0 <= i < |tail| && subst(tail[i].value) == Err(r.error)
          && forall j | 0 <= j < i :: subst(tail[j].value).Ok?;
        assert subst(ps[i + 1].value) == Err(r.error);
      }
    }
  }

  /** Cleaned parameters keep their keys and order, and each value is the
      original with its template calls evaluated. */
  lemma CleanParamValues(ps: seq<QueryParam>, today: int)
    requires Dates.InRange(today)
    requires CleanParam(Some(ps), Substitution(today)).Ok?
    ensures var r := CleanParam(Some(ps), Substitution(today)).value;
      |r| == |ps| && forall i | 0 <= i < |ps| ::
        r[i] == (ps[i].key, Template.SubstituteTemplates(ps[i].value, today).value)
  {
  }

  /** No parameters clean to none. */
  lemma CleanNone(subst: string -> Result<string>)
    ensures CleanParam(None, subst) == Ok([])
  {
  }

  // ---- run_fetch ----

  /** A `usize` always fits in a `u64`; the conversion's error is kept as the
      code writes it. */
  const U64Limit: nat := 0x1_0000_0000_0000_0000

  function PageSize(n: nat): (r: Result<nat>)
    ensures n < U64Limit ==> r == Ok(n)
    ensures r.Ok? <==> n < U64Limit
  {
    if n < U64Limit then Ok(n)
    else Err(ConfigError("Invalid page size: " + Digits(n) + " (must fit in u64)"))
  }

  /** What `run_fetch` does before any fetcher runs. */
  datatype Prepared = Fetch(plan: FetchPlan) | NoFetch

  const NoPaginationMessage: string := "no supported pagination configured"

  /** Clean the parameters, then choose by pagination style. */
  function Prepare(request: FetchRequest, query: QueryConfig, writeMode: WriteMode,
                   opts: FetchOpts, subst: string -> Result<string>): (r: Result<Prepared>)
  {
    var params :- CleanParam(request.extraParams, subst);
    match request.pagination
    case Some(LimitOffset(limitParam, offsetParam)) =>
      var pageSize :- PageSize(opts.defaultPageSize);
      Ok(Fetch(FetchPlan(opts.concurrency, opts.fetchBatchSize, query,
        LimitOffsetFetch(limitParam, offsetParam, pageSize, request.dataPath, params, writeMode))))
    case Some(PageNumber(pageParam, perPageParam)) =>
      var perPage :- PageSize(opts.defaultPageSize);
      Ok(Fetch(FetchPlan(opts.concurrency, opts.fetchBatchSize, query,
        PageNumberFetch(pageParam, perPageParam, perPage, request.dataPath, writeMode))))
    case Some(PageOnly(_)) => Ok(NoFetch)
    case Some(Cursor(_, _)) => Ok(NoFetch)
    case Some(Default) => Err(PaginationError(NoPaginationMessage))
    case None => Err(PaginationError(NoPaginationMessage))
  }

  /** `run_fetch`: the chosen fetcher's result, or empty statistics for the
      styles that fetch nothing. */
  function RunFetch(request: FetchRequest, query: QueryConfig, writeMode: WriteMode, opts: FetchOpts,
                    subst: string -> Result<string>, fetch: FetchPlan -> Result<FetchStats>): (r: Result<FetchStats>)
    ensures Prepare(request, query, writeMode, opts, subst).Err?
        ==> r == Err(Prepare(request, query, writeMode, opts, subst).error)
  {
    var prepared :- Prepare(request, query, writeMode, opts, subst);
    match prepared
    case Fetch(plan) => fetch(plan)
    case NoFetch => Ok(NoStats)
  }

  /** Parameters are cleaned first: a bad parameter template is the result
      whatever the pagination style. */
  lemma CleanedFirst(request: FetchRequest, query: QueryConfig, writeMode: WriteMode, opts: FetchOpts,
                     subst: string -> Result<string>, fetch: FetchPlan -> Result<FetchStats>)
    requires CleanParam(request.extraParams, subst).Err?
    ensures RunFetch(request, query, writeMode, opts, subst, fetch)
         == Err(CleanParam(request.extraParams, subst).error)
  {
  }

  /** With clean parameters, the outcome by pagination style: no style or
      `Default` is an error, `PageOnly` and `Cursor` fetch nothing, and the
      two paging styles call their fetcher with the default page size, the
      write mode and the options as given. */
  lemma Dispatch(request: FetchRequest, query: QueryConfig, writeMode: WriteMode, opts: FetchOpts,
                 subst: string -> Result<string>, fetch: FetchPlan -> Result<FetchStats>)
    requires opts.defaultPageSize < U64Limit
    requires CleanParam(request.extraParams, subst).Ok?
    ensures var r := RunFetch(request, query, writeMode, opts, subst, fetch);
      var params := CleanParam(request.extraParams, subst).value;
      match request.pagination
      case None => r == Err(PaginationError(NoPaginationMessage))
      case Some(Default) => r == Err(PaginationError(NoPaginationMessage))
      case Some(PageOnly(_)) => r == Ok(NoStats)
      case Some(Cursor(_, _)) => r == Ok(NoStats)
      case Some(LimitOffset(l, o)) =>
        r == fetch(FetchPlan(opts.concurrency, opts.fetchBatchSize, query,
          LimitOffsetFetch(l, o, opts.defaultPageSize, request.dataPath, params, writeMode)))
      case Some(PageNumber(p, pp)) =>
        r == fetch(FetchPlan(opts.concurrency, opts.fetchBatchSize, query,
          PageNumberFetch(p, pp, opts.defaultPageSize, request.dataPath, writeMode)))
  {
  }
}
