/** Assembling and running one pipeline job: the fixed fetch and writer
    options, looking the source and target up in the configuration, the
    destination table, and the rewrite of the SQL module's source name into
    that table. The HTTP client, the database connection and the fetchers
    are parameters that stand for the code this module calls. */
module Cmd {

  import opened Wrappers
  import opened Errors
  import opened Strings
  import Dates
  import Run
  import Templating

  /** `CONCURRENCY`, `DEFAULT_PAGE_SIZE` and `FETCH_BATCH_SIZE`. */
  const Concurrency: nat := 5
  const DefaultPageSize: nat := 50
  const FetchBatchSize: nat := 256

  /** `create_fetch_options`. */
  function CreateFetchOptions(): (o: Run.FetchOpts)
    ensures o.concurrency == 5 && o.defaultPageSize == 50 && o.fetchBatchSize == 256
  {
    Run.FetchOpts(Concurrency, DefaultPageSize, FetchBatchSize)
  }

  /** The fields of a configured source this module reads. The header list
      and URL only reach the HTTP client, which is a parameter here. */
  datatype SourceConfig = SourceConfig(
    dataPath: Option<string>,
    queryParams: Option<seq<Run.QueryParam>>,
    pagination: Option<Run.Pagination>,
    tableDestinationName: Option<string>,
    primaryKeyInDest: Option<string>)

  /** A configured target; only the connection code reads its settings. */
  datatype TargetConfig = TargetConfig(settings: map<string, string>)

  /** Sources and targets by name. */
  datatype Config = Config(sources: map<string, SourceConfig>, targets: map<string, TargetConfig>)

  datatype WriterOpts = WriterOpts(
    destTable: string,
    primaryKey: Option<string>,
    batchSize: nat,
    sampleSize: nat,
    autoCreate: bool,
    autoTruncate: bool,
    truncateFirst: bool,
    writeMode: Run.WriteMode)

  /** `create_writer_options`: merge into `destTable`, creating it when
      missing and never truncating, keyed as the source says. */
  function CreateWriterOptions(destTable: string, source: SourceConfig): (w: WriterOpts)
    ensures w.destTable == destTable && w.primaryKey == source.primaryKeyInDest
    ensures w.writeMode == Run.Merge && w.autoCreate && !w.autoTruncate && !w.truncateFirst
    ensures w.batchSize == 50 && w.sampleSize == 10
  {
    WriterOpts(destTable, source.primaryKeyInDest, 50, 10, true, false, false, Run.Merge)
  }

  /** `create_config_error`. */
  function CreateConfigError(configType: string, name: string): (e: ApitapError)
    ensures e.PipelineError?
    ensures Display(e) == "Pipeline error: " + configType + " not found in config: " + name
  {
    PipelineErrorDisplay(configType + " not found in config: " + name);
    PipelineError(configType + " not found in config: " + name)
  }

  /** `extract_destination_table`. */
  function ExtractDestinationTable(source: SourceConfig, sourceName: string): (r: Result<string>)
    ensures source.tableDestinationName.Some? <==> r.Ok?
    ensures r.Ok? ==> r.value == source.tableDestinationName.value
    ensures r.Err? ==> r.error == PipelineError("table_destination_name is required for source: " + sourceName)
  {
    match source.tableDestinationName
    case Some(t) => Ok(t)
    case None => Err(PipelineError("table_destination_name is required for source: " + sourceName))
  }

  /** `cfg.source(name)` / `cfg.target(name)` with the missing case turned
      into the config error. */
  function Lookup<T>(m: map<string, T>, name: string, configType: string): (r: Result<T>)
    ensures r.Ok? <==> name in m
    ensures r.Ok? ==> r.value == m[name]
    ensures r.Err? ==> r.error == CreateConfigError(configType, name)
  {
    if name in m then Ok(m[name]) else Err(CreateConfigError(configType, name))
  }

  /** The code a job calls that is not modelled: building the HTTP client
      and URL for a source, opening the target and its writer (with the
      truncate hook), and the fetchers. `http` is given the source's
      configuration, whose URL and headers the model does not carry, and
      `fetch` a plan without the URL or the client; so two sources that
      differ only in their URL fetch alike here. No property below relies
      on that. */
  datatype Collaborators = Collaborators(
    http: SourceConfig -> Result<()>,
    connect: (TargetConfig, WriterOpts) -> Result<()>,
    fetch: Run.FetchPlan -> Result<Run.FetchStats>)

  /** The SQL the job runs: every occurrence of the source name in the
      rendered module becomes the destination table. */
  function RewriteSql(sqlTemplate: string, sourceName: string, destTable: string): string {
    ReplaceAll(sqlTemplate, sourceName, destTable)
  }

  /** `execute_pipeline_job`: each step's error is the job's error. */
  function ExecutePipelineJob(sourceName: string, sinkName: string, sqlTemplate: string, cfg: Config,
                              opts: Run.FetchOpts, today: int, io: Collaborators): Result<()>
    requires Dates.InRange(today)
  {
    var source :- Lookup(cfg.sources, sourceName, "source");
    var target :- Lookup(cfg.targets, sinkName, "target");
    var client :- io.http(source);
    var destTable :- ExtractDestinationTable(source, sourceName);
    var sql := RewriteSql(sqlTemplate, sourceName, destTable);
    var writerOpts := CreateWriterOptions(destTable, source);
    var writer :- io.connect(target, writerOpts);
    var request := Run.FetchRequest(source.dataPath, source.queryParams, source.pagination);
    var stats :- Run.RunFetch(request, Run.QueryConfig(sql, destTable), writerOpts.writeMode, opts,
                                Run.Substitution(today), io.fetch);
    Ok(())
  }

  /** The source is looked up before the target, so a job missing both
      reports the source. */
  lemma LookupOrder(sourceName: string, sinkName: string, sqlTemplate: string, cfg: Config,
                    opts: Run.FetchOpts, today: int, io: Collaborators)
    requires Dates.InRange(today)
    ensures var r := ExecutePipelineJob(sourceName, sinkName, sqlTemplate, cfg, opts, today, io);
      && (sourceName !in cfg.sources ==> r == Err(CreateConfigError("source", sourceName)))
      && ((sourceName in cfg.sources && sinkName !in cfg.targets)
          ==> r == Err(CreateConfigError("target", sinkName)))
  {
  }

  /** A source without a destination table fails the job once its client is built. */
  lemma DestinationRequired(sourceName: string, sinkName: string, sqlTemplate: string, cfg: Config,
                            opts: Run.FetchOpts, today: int, io: Collaborators)
    requires Dates.InRange(today)
    requires sourceName in cfg.sources && sinkName in cfg.targets
    requires io.http(cfg.sources[sourceName]).Ok?
    requires cfg.sources[sourceName].tableDestinationName.None?
    ensures ExecutePipelineJob(sourceName, sinkName, sqlTemplate, cfg, opts, today, io)
         == Err(PipelineError("table_destination_name is required for source: " + sourceName))
  {
  }

  /** When every step before the fetch succeeds, the job's outcome is the
      fetch's, run on the rewritten SQL into the destination table with
      merge writes and the source's own parameters and pagination. */
  lemma JobRunsRewrittenSql(sourceName: string, sinkName: string, sqlTemplate: string, cfg: Config,
                            opts: Run.FetchOpts, today: int, io: Collaborators)
    requires Dates.InRange(today)
    requires sourceName in cfg.sources && sinkName in cfg.targets
    requires io.http(cfg.sources[sourceName]).Ok?
    requires cfg.sources[sourceName].tableDestinationName.Some?
    requires var source := cfg.sources[sourceName];
      io.connect(cfg.targets[sinkName],
                 CreateWriterOptions(source.tableDestinationName.value, source)).Ok?
    ensures var source := cfg.sources[sourceName];
      var dest := source.tableDestinationName.value;
      var fetched := Run.RunFetch(Run.FetchRequest(source.dataPath, source.queryParams, source.pagination),
                                  Run.QueryConfig(ReplaceAll(sqlTemplate, sourceName, dest), dest),
                                  Run.Merge, opts, Run.Substitution(today), io.fetch);
      ExecutePipelineJob(sourceName, sinkName, sqlTemplate, cfg, opts, today, io)
        == if fetched.Ok? then Ok(()) else Err(fetched.error)
  {
  }

  // ---- The source-name rewrite ----

  /** SQL that never mentions the source name is run as written. */
  lemma RewriteWithoutSource(sql: string, sourceName: string, destTable: string)
    requires |sourceName| > 0 && !Contains(sql, sourceName)
    ensures RewriteSql(sql, sourceName, destTable) == sql
  {
    ReplaceAbsent(sql, sourceName, destTable);
  }

  /** The name `use_source` emitted becomes the destination table, with the
      text around it kept, when that is the only place the name occurs. */
  lemma RewriteSourceReference(before: string, sourceName: string, after: string, destTable: string)
    requires |sourceName| > 0
    requires forall i :: OccursAt(before + sourceName + after, sourceName, i) ==> i == |before|
    ensures RewriteSql(before + sourceName + after, sourceName, destTable) == before + destTable + after
  {
    var s := before + sourceName + after;
    var n := |before| + |sourceName|;
    assert s[|before|..n] == sourceName;
    assert OccursAt(s, sourceName, |before|);
    ReplaceAtFirst(s, sourceName, destTable, |before|);
    assert s[..|before|] == before;
    assert s[n..] == after;
    forall i ensures !OccursAt(after, sourceName, i) {
      if OccursAt(after, sourceName, i) {
        assert s[n + i..n + i + |sourceName|] == after[i..i + |sourceName|];
        assert OccursAt(s, sourceName, n + i);
      }
    }
    ReplaceAbsent(after, sourceName, destTable);
  }

  /** A module `SELECT id FROM {{ use_source("orders") }}` renders to
      `SELECT id FROM orders`; with `raw_orders` as the destination table the
      job runs `SELECT id FROM raw_orders`. */
  lemma UseSourceRewritten()
    ensures RewriteSql("SELECT id FROM orders", "orders", "raw_orders") == "SELECT id FROM raw_orders"
  {
    assert "SELECT id FROM " + "orders" + "" == "SELECT id FROM orders";
    FirstCharAbsent("SELECT id FROM ", "orders", "orders");
    assert "SELECT id FROM " + "orders" == "SELECT id FROM orders";
    RewriteSourceReference("SELECT id FROM ", "orders", "", "raw_orders");
    assert "SELECT id FROM " + "raw_orders" + "" == "SELECT id FROM raw_orders";
  }

  // ---- One SQL module ----

  /** What `process_template` sets up for a module, run once: render it
      (clearing the shared capture), then run the job with the captured
      source and sink names and the rendered SQL. The first component is
      the shared capture afterwards. In `process_template` only a render
      failure is returned (src/cmd/mod.rs:188); the scheduled closure logs a
      failing job and returns nothing (src/cmd/mod.rs:228-235), so the
      second component is the job's outcome as that closure sees it, not
      what `process_template` returns. */
  function RunModule(env: Templating.Loader, shared: Templating.RenderCapture, name: string, cfg: Config,
                     opts: Run.FetchOpts, today: int, io: Collaborators): (r: (Templating.RenderCapture, Result<()>))
    requires Dates.InRange(today)
    ensures Templating.RenderOne(env, shared, name).1.Err? ==> r.1.Err? && r.1.error.Minijinja?
    ensures Templating.RenderOne(env, shared, name).1.Err?
        ==> r.1 == Err(Templating.RenderOne(env, shared, name).1.error)
  {
    var (after, rendered) := Templating.RenderOne(env, shared, name);
    match rendered
    case Err(e) => (after, Err(e))
    case Ok(sqlModule) =>
      (after, ExecutePipelineJob(sqlModule.capture.source, sqlModule.capture.sink, sqlModule.sql, cfg, opts, today, io))
  }

  /** A module that renders runs the job on its own captures: the source
      and sink are the last `use_source` and `sink` arguments, and the SQL is
      the rendered text. */
  lemma ModuleUsesCaptures(env: Templating.Loader, shared: Templating.RenderCapture, name: string, cfg: Config,
                           opts: Run.FetchOpts, today: int, io: Collaborators)
    requires Dates.InRange(today)
    requires Templating.RenderOne(env, shared, name).1.Ok?
    ensures var t := env[name];
      var cap := Templating.Captured(t, Templating.NoCapture);
      RunModule(env, shared, name, cfg, opts, today, io).1
        == ExecutePipelineJob(cap.source, cap.sink, Templating.Output(t), cfg, opts, today, io)
  {
    Templating.RenderOneSpec(env, shared, name);
  }
}
