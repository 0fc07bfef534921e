# apitap core, modelled in Dafny

apitap is an ETL runner. Each SQL module is a Minijinja template. It names its sink
with `{{ sink(name="...") }}` and its source with `{{ use_source("...") }}`. For each
module, apitap does the following:

1. It looks the source and the target up in the configuration.
2. It fetches the source's HTTP API page by page. The query parameters may contain
   `{{ current_date() }}` and `{{ few_date_ago(n) }}`.
3. It infers an Arrow schema from the first JSON items.
4. It writes through the rewritten SQL into the destination table.

This project is a functional model of the sequential logic in those steps, with proofs
about it:

| module | file | models |
|---|---|---|
| `Errors` | `errors.dfy` | `ApitapError`, its `Display` text, and the `Result` type |
| `Strings` | `strings.dfy` | byte-wise string order and sorting, `str::replace`, `join`, ASCII case folding, decimal digits |
| `Dates` | `dates.dfy` | day numbers ↔ proleptic Gregorian dates, `%Y-%m-%d`, the calendar's range |
| `Template` | `template.dfy` | the `{{ name(args) }}` pattern, `extract_function_names`, `parse_function!`, `current_date`, `few_date_ago`, `substitute_templates` |
| `Templating` | `templating.dfy` | `RenderCapture`, `RenderedSql`, the `sink` / `use_source` capture functions, `render_one`, `list_sql_templates` |
| `Schema` | `schema.dfy` | `FieldType::merge`, `FieldInference::observe` / `to_data_type`, `infer_schema_streaming` |
| `Run` | `run.dfy` | `clean_param` and the pagination dispatch of `run_fetch` |
| `Cmd` | `cmd.dfy` | the fixed fetch and writer options, the config lookups, the destination table, the source-name rewrite, `execute_pipeline_job` |

Some things the code obtains itself are parameters here:

- The clock is a day number `today`.
- The template directory is a map from names to templates, where a template is a sequence
  of text and call segments.
- A directory walk is a sequence of entries. An entry is a path of components with an
  is-file flag, or a walk failure.
- A JSON stream is a sequence of `Result<Json>`.
- The HTTP client, the database connection and the fetchers are function-valued
  parameters. They return what the real code would return.
- `run_fetch` takes the substitution that `clean_param` applies as a parameter. The job
  passes the real one, `substitute_templates` with the clock fixed at `today`.

## Model

| member | source | states |
|---|---|---|
| Errors.DisplayRoundTrip | src/errors/mod.rs:64-86 | every string-carrying variant's text can be parsed back to the same variant and payload, so the prefixes are distinct and the payload is kept verbatim |
| Errors.PrefixRoundTrip | src/errors/mod.rs:10-92 | every variant's display prefix is colon-free and identifies the variant uniquely |
| Errors.DisplayShape | src/errors/mod.rs:64-86 | the text of an error is its fixed prefix, then ": ", then the payload, with nothing else |
| Errors.ConfigErrorDisplay | src/errors/mod.rs:67-68 | `ConfigError(m)` displays as "Configuration error: " followed by m |
| Errors.PipelineErrorDisplay | src/errors/mod.rs:76-77 | `PipelineError(m)` displays as "Pipeline error: " followed by m |
| Errors.WriterErrorDisplay | src/errors/mod.rs:73-74 | the text of `WriterError(m)` begins with "Writer error" |
| Errors.ConfigErrorExample | src/errors/mod.rs:102-106 | `ConfigError("missing url")` displays as "Configuration error: missing url" |
| Strings.Sort | src/config/templating.rs:218 | the result is in ascending byte order and is a permutation of the input |
| Strings.SortedUnique | src/config/templating.rs:218 | two sorted sequences with the same elements are equal, so sorting does not depend on the input order |
| Strings.LexLeTotal | src/config/templating.rs:218 | the string order used by `sort` relates every pair of strings |
| Strings.LexLeTransitive | src/config/templating.rs:218 | the string order is transitive |
| Strings.LexLeAntisymmetric | src/config/templating.rs:218 | two strings ordered both ways are equal |
| Strings.ReplaceAbsent | src/cmd/mod.rs:274 | replacing a non-empty pattern that never occurs leaves the text unchanged |
| Strings.ReplaceBySelf | src/cmd/mod.rs:274 | replacing a pattern by itself leaves the text unchanged |
| Strings.ReplaceAtStart | src/cmd/mod.rs:274 | an occurrence at the front is replaced, and scanning resumes after it |
| Strings.ReplaceStep | src/cmd/mod.rs:274 | where no occurrence starts at the front, the first character is kept and scanning moves on by one |
| Strings.ReplaceSkipsPrefix | src/cmd/mod.rs:274 | text at which no occurrence starts is copied verbatim, and replacement carries on after it |
| Strings.ReplaceAtFirst | src/cmd/mod.rs:274 | the leftmost occurrence is replaced, the text before it is kept, and scanning resumes right after it |
| Strings.ReplaceJoin | src/cmd/mod.rs:274 | when no occurrence starts inside any piece, replacing in pieces joined by the pattern gives the pieces joined by the replacement, so every occurrence is replaced |
| Strings.ReplaceEmpty | src/cmd/mod.rs:274 | replacing the empty pattern adds the replacement's length once per character of the text and once more |
| Strings.DigitsRoundTrip | src/utils/template.rs:12-13 | the decimal text of n reads back as n |
| Strings.LeadingZerosValue | src/utils/template.rs:50 | leading zeros do not change the value of a numeral |
| Strings.PaddedRoundTrip | src/utils/template.rs:50 | a zero-padded field of `%Y-%m-%d` reads back as its number |
| Dates.YearOfEra | src/utils/template.rs:61-67 | a day of a 400-year era splits into a year of the era and a day within that year's length, which is 366 exactly when the year's February is a leap February |
| Dates.LeapShift | src/utils/template.rs:61-67 | whole 400-year eras do not change whether a year is a leap year |
| Dates.YearOfEraUnique | src/utils/template.rs:61-67 | a day of an era has exactly one year of era and day of year |
| Dates.MonthIndexOf | src/utils/template.rs:61-67 | every day within a month's span of the March-based year gets that month |
| Dates.MonthSpan | src/utils/template.rs:61-67 | the month spans of the March-based year have the lengths of March to January |
| Dates.CivilFromDaysValid | src/utils/template.rs:61-67 | every day number gives a date the calendar has: a month 1 to 12, a day within the month, February 29th only in leap years |
| Dates.CivilRoundTripBack | src/utils/template.rs:61-67 | converting a valid calendar date to a day number and back gives the same date |
| Dates.EpochDay | src/utils/template.rs:61-67 | day 0 is 1970-01-01 |
| Dates.LeapDay2000 | src/utils/template.rs:61-67 | day 11016 is 2000-02-29 |
| Dates.FormatDateReadsBack | src/utils/template.rs:46-51 | for years 0 to 9999, the date text reads back field by field as the date it was made from |
| Dates.CivilRoundTrip | src/utils/template.rs:61-67 | converting a day number to a calendar date and back gives the same day number |
| Dates.CivilInjective | src/utils/template.rs:61-67 | different day numbers give different calendar dates |
| Dates.FormatDateShape | src/utils/template.rs:46-51 | for years 0 to 9999, the date text is exactly four digits, '-', two digits, '-', two digits |
| Template.MatchAtSound | src/utils/template.rs:36 | a match the scanner reports is an occurrence of the pattern: `{{`, optional whitespace, an identifier starting with a letter or `_`, `(`, text without `}`, `)`, optional whitespace, `}}` |
| Template.MatchAtComplete | src/utils/template.rs:36 | every occurrence of the pattern at a position is exactly the match the scanner reports there |
| Template.FindFromSpec | src/utils/template.rs:37-41 | the search returns the leftmost match at or after the position, and no match means no occurrence from there on |
| Template.FindFromLeftmost | src/utils/template.rs:91 | no occurrence of the pattern begins before the match the search returns |
| Template.TokenizeRoundTrip | src/utils/template.rs:88-106 | the text between matches, together with each matched source text and the trailing text, rebuilds the input exactly |
| Template.TokenizePlaceholders | src/utils/template.rs:91-106 | each cut-out piece is a placeholder for its call, and no text kept between matches contains a placeholder |
| Template.TokenizeCall | src/utils/template.rs:36-40 | each captured call has an identifier, then `(`, then text without `}`, then `)`, and excludes the braces and the whitespace inside them |
| Template.ExtractFunctionNames | src/utils/template.rs:35-44 | every returned name is a call of the captured form |
| Template.ExtractEmptyIff | src/utils/template.rs:35-44 | no names are returned exactly when the text has no placeholder |
| Template.ExtractPlainText | src/utils/template.rs:35-44 | the text "asoi" yields no names |
| Template.ParseI64RoundTrip | src/utils/template.rs:13 | the decimal text of any 64-bit integer, with an optional `+` on non-negatives, parses back to it |
| Template.ParseI64Refuses | src/utils/template.rs:13 | numbers above the 64-bit range, the empty text and a lone sign do not parse |
| Template.ParseI64RefusesBelow | src/utils/template.rs:13 | negative numbers below the 64-bit range do not parse |
| Template.ParseI64NeedsDigits | src/utils/template.rs:13 | a text without a single digit does not parse |
| Template.CurrentDate | src/utils/template.rs:46-52 | for the years 0 to 9999 the result is YYYY-MM-DD text that reads back as a valid calendar date whose day number is today |
| Template.FewDateAgo | src/utils/template.rs:54-69 | the result is the date `days` days before today; a negative count is "days must be non-negative"; a date before the calendar's start is "date out of range"; and it succeeds exactly when neither applies |
| Template.FewDateAgoAsWritten | src/utils/template.rs:63 | as written, the call panics exactly when the count exceeds the largest whole number of days in a chrono `Duration` |
| Template.FewDateAgoAgrees | src/utils/template.rs:54-69 | below that bound, the code as written returns what the corrected function returns |
| Template.FewDateAgoPanics | src/utils/template.rs:63 | 106751991168 days panics as written, where "date out of range" is evidently intended |
| Template.ParseFunction | src/utils/template.rs:6-23 | a value produced by dispatch is a date on or before today, and every failure is a `PipelineError` |
| Template.DispatchFewDateAgo | src/utils/template.rs:11-16 | for `few_date_ago(arg)`, an arg that is not a 64-bit integer is "Invalid argument: arg", and otherwise the result is `few_date_ago` of its value |
| Template.ParseFewDateAgo | src/utils/template.rs:11-16 | `few_date_ago(n)` with n written in decimal dispatches to `few_date_ago` of n |
| Template.ParseFewDateAgoNegative | src/utils/template.rs:11-16 | a negative count written in decimal fails with "days must be non-negative" |
| Template.OnlyKnownFunctions | src/utils/template.rs:9-21 | a call that is not exactly `current_date()` and whose name is not `few_date_ago` fails with "Unknown function: " and the whole call |
| Template.ZeroDaysAgoIsToday | src/utils/template.rs:46-67 | with the same clock, `few_date_ago(0)` and `current_date()` give the same text, which is today's formatted date |
| Template.SubstituteTemplates | src/utils/template.rs:85-109 | every failure is a `PipelineError` |
| Template.SubstituteTemplatesSpec | src/utils/template.rs:85-109 | the result succeeds exactly when every extracted call evaluates, and is then the text between matches, in order, with each match replaced by its call's value; otherwise it is the error of the leftmost failing call, with no partial text |
| Template.SubstituteNoPlaceholder | src/utils/template.rs:85-109 | text without a placeholder is returned unchanged |
| Template.SubstituteEnvLookalike | src/utils/template.rs:85-109 | "${TOKEN}" is returned unchanged |
| Template.FirstCallFails | src/utils/template.rs:99 | when the first extracted call fails, substitution returns that call's error |
| Template.SubstituteNegativeFails | src/utils/template.rs:99 | "{{ few_date_ago(-1) }}" fails with "days must be non-negative" |
| Template.NegativeExampleName | src/utils/template.rs:35-44 | "{{ few_date_ago(-1) }}" yields exactly the name "few_date_ago(-1)" |
| Templating.Step | src/config/templating.rs:63-84 | a failing segment leaves the capture unchanged and is a Minijinja error |
| Templating.RenderOkIff | src/config/templating.rs:136-137 | rendering succeeds exactly when every segment is text or a call to `sink` or `use_source` with its argument |
| Templating.RenderValue | src/config/templating.rs:63-84 | a successful render outputs the text with `use_source` calls replaced by their argument and `sink` calls by nothing, and captures the last `sink` and `use_source` arguments |
| Templating.RenderOne | src/config/templating.rs:123-150 | a rendered module carries the requested name and the capture left after rendering, and a failure is a Minijinja error |
| Templating.RenderOneSpec | src/config/templating.rs:123-150 | a module renders exactly when it exists and all its segments render; its SQL is the rendered text and its capture is the one obtained from an empty capture |
| Templating.RenderOneForgets | src/config/templating.rs:128-134 | the outcome does not depend on the capture left by earlier renders |
| Templating.RenderOneMissing | src/config/templating.rs:136 | a missing module is a template-not-found error and leaves the capture cleared |
| Templating.ClearsPreviousCaptures | src/config/templating.rs:128-134 | rendering a sink/source module and then a plain one gives the plain one empty captures |
| Templating.ScheduleNotRegistered | src/config/templating.rs:60-85 | a module that calls `schedule("daily_job")` fails with an unknown-function error, because only `sink` and `use_source` are registered |
| Templating.Extension | src/config/templating.rs:195-197 | a found extension is the text after the last dot, which is not the first character; there is none for dot-free names after the first character and for ".." |
| Templating.ListSqlTemplates | src/config/templating.rs:182-220 | listing never fails and returns a sorted list |
| Templating.Listed | src/config/templating.rs:186-216 | a name is listed exactly when some walk entry is a regular file under the root with extension "sql" in any ASCII case, and its components below the root, joined by "/", are that name |
| Templating.CollectPermutation | src/config/templating.rs:186-216 | walk entries in any order yield the same names, with multiplicity |
| Templating.WalkOrderIrrelevant | src/config/templating.rs:182-220 | the listing does not depend on the order the walk yields entries |
| Templating.WalkFailureSkipped | src/config/templating.rs:187-190 | a walk error changes nothing in the listing |
| Templating.DotFileNotListed | src/config/templating.rs:195-202 | ".sql" has no extension and is not listed |
| Templating.SqlAnyCase | src/config/templating.rs:195-202 | a file whose extension is "sql" in any ASCII case is an SQL file |
| Templating.UpperCaseListed | src/config/templating.rs:195-202 | "query2.SQL" and "query3.Sql" are SQL files |
| Templating.OtherExtensionSkipped | src/config/templating.rs:195-202 | "readme.txt" is not an SQL file |
| Templating.SubdirectoryName | src/config/templating.rs:204-215 | `subdir/query3.sql` under the root is listed as "subdir/query3.sql" |
| Templating.SortedExample | src/config/templating.rs:218 | walking zebra, apple, banana lists apple, banana, zebra |
| Schema.MergeCommutative | src/utils/schema.rs:116-128 | merging is commutative |
| Schema.MergeAssociative | src/utils/schema.rs:116-128 | merging is associative, so any grouping of observations gives the same type |
| Schema.MergeIdempotent | src/utils/schema.rs:116-128 | merging a type with itself gives it back |
| Schema.MergeUnit | src/utils/schema.rs:118-123 | Unknown is the identity of merging and String absorbs every type |
| Schema.MergeDistinct | src/utils/schema.rs:121-126 | two distinct known types merge to Float64 when they are Int64 and Float64, and to String otherwise |
| Schema.MergeIsJoin | src/utils/schema.rs:116-128 | the merge is the least upper bound in the order Unknown < Boolean, Int64 < Float64, List, Struct < String |
| Schema.BelowIsOrder | src/utils/schema.rs:104-113 | that order is reflexive, antisymmetric and transitive |
| Schema.Kind | src/utils/schema.rs:66-89 | a JSON value contributes Unknown exactly when it is null, and never List or Struct |
| Schema.Observe | src/utils/schema.rs:66-89 | an observation merges the value's kind into the field's type, and the field becomes nullable exactly when the value is null or it already was |
| Schema.ObserveNull | src/utils/schema.rs:68 | observing null marks the field nullable and keeps its type |
| Schema.ToDataType | src/utils/schema.rs:91-101 | exactly Unknown, String and Struct become Utf8, exactly List becomes a list of Utf8, and exactly Boolean, Int64 and Float64 become the Arrow Boolean, Int64 and Float64 types |
| Schema.Absorb | src/utils/schema.rs:20-27 | a non-object item adds nothing, and an object adds its keys to the fields |
| Schema.ScanKeys | src/utils/schema.rs:20-27 | a key is a field exactly when some object among the items has it |
| Schema.ScanUpper | src/utils/schema.rs:20-27 | a field's type is at or above the kind of each of its values |
| Schema.ScanLeast | src/utils/schema.rs:20-27 | a field's type is the least one above all of its values' kinds |
| Schema.ScanNullable | src/utils/schema.rs:20-27 | a field is nullable exactly when some object has null under its key, so a key that is merely absent stays non-nullable |
| Schema.ScanNeverNested | src/utils/schema.rs:80-87 | no field is ever inferred as List or Struct |
| Schema.FirstErrorNone | src/utils/schema.rs:17-18 | no error is found exactly when every item read is a value |
| Schema.FirstErrorIsLeftmost | src/utils/schema.rs:17-18 | the error found is that of the first failing item |
| Schema.Finish | src/utils/schema.rs:35-49 | with no fields, the result is "No fields found in JSON stream"; otherwise there is one schema field per key, with its converted type and nullability |
| Schema.InferSchemaStreaming | src/utils/schema.rs:10-50 | the streaming loop returns the first error among the first 100 items, or else the schema of those items' fields |
| Schema.LaterItemsIgnored | src/utils/schema.rs:15-33 | items after the first 100 never affect the result |
| Schema.ErrorAborts | src/utils/schema.rs:17-18 | an error among the first 100 items, after only values, is the result |
| Schema.InferSchemaOk | src/utils/schema.rs:35-47 | an error-free sample fails exactly when no object in it has a key, and otherwise the schema's fields are the keys seen |
| Schema.NullsUseUpTheSample | src/utils/schema.rs:29-39 | 100 nulls followed by an object give "No fields found in JSON stream", because non-objects count toward the sample |
| Run.CleanAll | src/pipeline/run.rs:47-54 | mapping a substitution over parameters keeps their keys, order and number, and each value is the substitution of the original |
| Run.CleanAllFails | src/pipeline/run.rs:47-54 | cleaning succeeds exactly when every value's substitution does, and otherwise fails with the leftmost failure's error |
| Run.CleanParamValues | src/pipeline/run.rs:45-54 | each cleaned parameter is the original key paired with its value after template substitution |
| Run.CleanNone | src/pipeline/run.rs:55 | no parameters clean to an empty list |
| Run.PageSize | src/pipeline/run.rs:82-87 | a page size within 64 bits is used as is, and the conversion fails exactly for the sizes beyond 64 bits |
| Run.RunFetch | src/pipeline/run.rs:58-157 | a failure before any fetcher runs (a bad parameter template, a missing pagination style, a page size beyond 64 bits) is the result, unchanged |
| Run.CleanedFirst | src/pipeline/run.rs:71-73 | a bad parameter template is the result, whatever the pagination style, even an unsupported one |
| Run.Dispatch | src/pipeline/run.rs:73-156 | no pagination or `Default` fails with "no supported pagination configured"; `PageOnly` and `Cursor` return empty statistics without fetching; limit/offset and page-number paging call their fetcher with the default page size, the options' concurrency and batch size, and the write mode unchanged; only limit/offset receives the cleaned parameters |
| Cmd.CreateFetchOptions | src/cmd/mod.rs:27-34 | concurrency is 5, the default page size 50 and the fetch batch size 256 |
| Cmd.CreateWriterOptions | src/cmd/mod.rs:342-353 | writes merge into the destination table, with batch size 50 and sample size 10, creating the table and never truncating it, and keyed by the source's primary key |
| Cmd.CreateConfigError | src/cmd/mod.rs:356-358 | a missing entry is a `PipelineError` displayed as "Pipeline error: <kind> not found in config: <name>" |
| Cmd.ExtractDestinationTable | src/cmd/mod.rs:332-339 | the destination table is found exactly when configured, and its absence is "table_destination_name is required for source: <name>" |
| Cmd.Lookup | src/cmd/mod.rs:257-263 | a lookup succeeds exactly when the name is configured, and otherwise gives the config error for that kind |
| Cmd.LookupOrder | src/cmd/mod.rs:257-263 | a missing source is reported before a missing target |
| Cmd.DestinationRequired | src/cmd/mod.rs:273 | a source without a destination table fails the job with the required-table error |
| Cmd.JobRunsRewrittenSql | src/cmd/mod.rs:246-314 | when the earlier steps succeed, the job's outcome is the fetch's, run on the rewritten SQL into the destination table with merge writes and the source's own data path, parameters and pagination |
| Cmd.RewriteWithoutSource | src/cmd/mod.rs:274 | SQL that does not mention the source name runs as written |
| Cmd.RewriteSourceReference | src/cmd/mod.rs:274 | when the name emitted by `use_source` occurs once in the SQL, it becomes the destination table, with the surrounding text kept |
| Cmd.UseSourceRewritten | src/cmd/mod.rs:274 | "SELECT id FROM orders" with source "orders" and table "raw_orders" runs as "SELECT id FROM raw_orders" |
| Cmd.RunModule | src/cmd/mod.rs:188-191 | a module that fails to render fails with its render error, unchanged, which is a Minijinja error |
| Cmd.ModuleUsesCaptures | src/cmd/mod.rs:188-195 | a module that renders runs the job with its captured source and sink and its rendered SQL |

## Left out

- Cron scheduling and shutdown (src/cmd/mod.rs:106, 140-155, 203-239) are left out. The code delegates them to `tokio_cron_scheduler` and `tokio::signal`. apitap is described as a cron scheduler, but its code holds no cron parsing or fire-time logic, so the model follows the code.
- `schedule()` and `capture.schedule` are not part of this model. `RenderCapture` has only `sink` and `source`, and no `schedule` function is registered. `Templating.ScheduleNotRegistered` records what a template calling it gets: an unknown-function error, where the test at tests/config/templating_tests.rs:61-80 expects a capture.
- `substitute_env_vars` is not part of this model, because its definition is not in src/utils/template.rs. Building the HTTP client and parsing the URL (src/cmd/mod.rs:266-270, 317-329) are the `http` collaborator.
- HTTP paging, retries and the page writer (`PaginatedFetcher`, `DataFusionPageWriter`) are left out, as are Postgres connections, `make_writer` and the truncate hook. They are I/O over types not shown, so they are the `fetch` and `connect` parameters. `WriteMode` is kept as the two-valued enum of src/writer/mod.rs:31-36.
- Run.PageSize: the contract states when the conversion fails but not its message, because the `usize` → `u64` conversion cannot fail on real platforms. The error branch is modelled with the code's message.
- Template.ParseFunction: dispatches to the corrected `few_date_ago` (see Findings). So it, `Template.SubstituteTemplates`, `Run.Substitution`, `Run.CleanParam` and `Run.RunFetch` when given `Run.Substitution`, `Cmd.ExecutePipelineJob` and `Cmd.RunModule` return "date out of range" where the code as written panics for counts above 106751991167 days.
- Cmd.RunModule: the job's outcome is its second component. `process_template` itself returns only a render failure; a failing scheduled job is logged (src/cmd/mod.rs:225-235).
- Run.Dispatch: `FetchStats::new()` is taken to be zero items, because `FetchStats` is not shown.
- The page-number fetcher is passed `None` for its parameters at src/pipeline/run.rs:128, so its plan carries no parameters. This is modelled as written.
- `Regex::new` on the constant pattern cannot fail, so the `?` at src/utils/template.rs:36 and :86 is not modelled.
- The local clock is read once per date call. A substitution with several calls could straddle midnight, but the model uses one `today` for all of them.
- Regex whitespace: `\s` is taken as the Unicode White_Space set.
- Template rendering: Minijinja's template language is reduced to text and call segments. Its own error wording is not modelled; the error carries a description. Whitespace control, loops, variables and other functions are not modelled.
- Directory walks: paths are sequences of UTF-8 components. Lossy conversion of non-UTF-8 names is not modelled, and the order is byte-wise, as Rust's `String` order is.
- `infer_schema_from_values` (src/utils/schema.rs:133-150) is left out. It is serde_arrow's inference, which is foreign library behaviour.
- JSON numbers: `n.is_f64()` is an abstract flag. A JSON object is a map, because the order of `HashMap` iteration is unspecified. The schema is a map from field name to field, because the order of the `Vec<Field>` is unspecified.
- The `Arc<Mutex<RenderCapture>>` is left out: the capture is threaded explicitly. The mutex-poisoning panics are left out.
- Foreign error variants (`Io`, `Reqwest`, `Sqlx` and the others) carry their message as a string, since the wrapped library errors are not modelled.
- CLI parsing, tracing setup and logging (src/cmd/mod.rs:37-74, src/log/mod.rs) are left out. So are the DataFusion execution glue (src/utils/execution.rs) and the module re-exports.

## Findings

| source | as written | input that shows it | evidently intended | confidence | as-written member | corrected member |
|---|---|---|---|---|---|---|
| src/utils/template.rs:63 | `Duration::days(days)` is built before `checked_sub_signed`. chrono panics when the count exceeds 106751991167 days, the most a `Duration` of i64 milliseconds holds. | `{{ few_date_ago(106751991168) }}` in a query parameter | a count too large to subtract returns "date out of range", as the `checked_sub_signed` guard intends | not executed | Template.FewDateAgoAsWritten, Template.FewDateAgoPanics | Template.FewDateAgo |
