/** The crate-wide error enum and its `Display` strings.

    Every variant is modelled with a string payload: for the variants that
    carry a plain `String` this is that string; for the variants that wrap a
    foreign library error it stands for that error's own display text. */
module Errors {

  import opened Wrappers

  datatype ApitapError =
    | LinesCodecError(detail: string)
    | RegexError(detail: string)
    | Datafusion(detail: string)
    | Io(detail: string)
    | Reqwest(detail: string)
    | HeaderName(detail: string)
    | HeaderValue(detail: string)
    | SerdeJson(detail: string)
    | Sqlx(detail: string)
    | JoinError(detail: string)
    | Arrow(detail: string)
    | Parquet(detail: string)
    | SerdeArrow(detail: string)
    | SerdeYaml(detail: string)
    | WalkDir(detail: string)
    | Minijinja(detail: string)
    | UrlParseError(detail: string)
    | ScheduleError(detail: string)
    | PoisonError(detail: string)
    | ConfigError(detail: string)
    | PaginationError(detail: string)
    | WriterError(detail: string)
    | PipelineError(detail: string)
    | UnsupportedSink(detail: string)
    | MergeError(detail: string)
    | DataTypeError(detail: string)
    | FromEnvError(detail: string)
    | ReqwestMiddlewareError(detail: string)

  /** The crate's `Result<T>` alias, usable with `:-`. */
  datatype Result<+T> = Ok(value: T) | Err(error: ApitapError) {
    predicate IsFailure() { Err? }

    function PropagateFailure<U>(): Result<U>
      requires Err?
    {
      Err(error)
    }

    function Extract(): T
      requires Ok?
    {
      value
    }
  }

  /** The fixed text each variant's `#[error("…: {0}")]` attribute puts before the payload. */
  function Prefix(e: ApitapError): string {
    match e
    case LinesCodecError(_) => "LinesCodecError error"
    case RegexError(_) => "Regex error"
    case Datafusion(_) => "DataFusion error"
    case Io(_) => "I/O error"
    case Reqwest(_) => "HTTP request failed"
    case HeaderName(_) => "Invalid header name"
    case HeaderValue(_) => "Invalid header value"
    case SerdeJson(_) => "JSON serialization error"
    case Sqlx(_) => "Database error"
    case JoinError(_) => "Task join error"
    case Arrow(_) => "Arrow error"
    case Parquet(_) => "Parquet error"
    case SerdeArrow(_) => "Serde Arrow error"
    case SerdeYaml(_) => "YAML error"
    case WalkDir(_) => "Directory walk error"
    case Minijinja(_) => "Template error"
    case UrlParseError(_) => "URL parse error"
    case ScheduleError(_) => "Schedule error"
    case PoisonError(_) => "Poison Error"
    case ConfigError(_) => "Configuration error"
    case PaginationError(_) => "Pagination error"
    case WriterError(_) => "Writer error"
    case PipelineError(_) => "Pipeline error"
    case UnsupportedSink(_) => "Unsupported sink"
    case MergeError(_) => "Merge Error"
    case DataTypeError(_) => "Data Type Error"
    case FromEnvError(_) => "Tracing From Env Error"
    case ReqwestMiddlewareError(_) => "Reqwest Middleware Error"
  }

  /** `err.to_string()`: the variant's prefix, ": ", then the payload. */
  function Display(e: ApitapError): string {
    Prefix(e) + ": " + e.detail
  }

  /** The inverse of `Prefix`: the variant a prefix belongs to, holding `detail`.
      Dispatching on the first character keeps each lookup to a few comparisons. */
  function FromPrefix(p: string, detail: string): Option<ApitapError> {
    if |p| == 0 then None
    else match p[0]
      case 'A' =>
        if p == "Arrow error" then Some(Arrow(detail))
        else None
      case 'C' =>
        if p == "Configuration error" then Some(ConfigError(detail))
        else None
      case 'D' =>
        if p == "DataFusion error" then Some(Datafusion(detail))
        else if p == "Database error" then Some(Sqlx(detail))
        else if p == "Directory walk error" then Some(WalkDir(detail))
        else if p == "Data Type Error" then Some(DataTypeError(detail))
        else None
      case 'H' =>
        if p == "HTTP request failed" then Some(Reqwest(detail))
        else None
      case 'I' =>
        if p == "I/O error" then Some(Io(detail))
        else if p == "Invalid header name" then Some(HeaderName(detail))
        else if p == "Invalid header value" then Some(HeaderValue(detail))
        else None
      case 'J' =>
        if p == "JSON serialization error" then Some(SerdeJson(detail))
        else None
      case 'L' =>
        if p == "LinesCodecError error" then Some(LinesCodecError(detail))
        else None
      case 'M' =>
        if p == "Merge Error" then Some(MergeError(detail))
        else None
      case 'P' =>
        if p == "Parquet error" then Some(Parquet(detail))
        else if p == "Poison Error" then Some(PoisonError(detail))
        else if p == "Pagination error" then Some(PaginationError(detail))
        else if p == "Pipeline error" then Some(PipelineError(detail))
        else None
      case 'R' =>
        if p == "Regex error" then Some(RegexError(detail))
        else if p == "Reqwest Middleware Error" then Some(ReqwestMiddlewareError(detail))
        else None
      case 'S' =>
        if p == "Serde Arrow error" then Some(SerdeArrow(detail))
        else if p == "Schedule error" then Some(ScheduleError(detail))
        else None
      case 'T' =>
        if p == "Task join error" then Some(JoinError(detail))
        else if p == "Template error" then Some(Minijinja(detail))
        else if p == "Tracing From Env Error" then Some(FromEnvError(detail))
        else None
      case 'U' =>
        if p == "URL parse error" then Some(UrlParseError(detail))
        else if p == "Unsupported sink" then Some(UnsupportedSink(detail))
        else None
      case 'W' =>
        if p == "Writer error" then Some(WriterError(detail))
        else None
      case 'Y' =>
        if p == "YAML error" then Some(SerdeYaml(detail))
        else None
      case _ => None
  }

  /** Index of the first ": " in `s` at or after `from`, if any. */
  function FindSeparator(s: string, from: nat): (r: Option<nat>)
    requires from <= |s|
    ensures r.Some? ==> from <= r.value && r.value + 1 < |s| && s[r.value] == ':' && s[r.value + 1] == ' '
    ensures r.Some? ==> forall j :: from <= j < r.value ==> !(s[j] == ':' && s[j + 1] == ' ')
    ensures r.None? ==> forall j :: from <= j && j + 1 < |s| ==> !(s[j] == ':' && s[j + 1] == ' ')
    decreases |s| - from
  {
    if from + 1 >= |s| then None
    else if s[from] == ':' && s[from + 1] == ' ' then Some(from)
    else FindSeparator(s, from + 1)
  }

  /** Reads a displayed error back: split at the first ": " and look the prefix up. */
  function ParseDisplay(s: string): Option<ApitapError> {
    match FindSeparator(s, 0)
    case None => None
    case Some(i) => FromPrefix(s[..i], s[i + 2..])
  }

  predicate NoColon(p: string) {
    forall i :: 0 <= i < |p| ==> p[i] != ':'
  }

  lemma PrefixGroup1(e: ApitapError)
    requires e.LinesCodecError? || e.RegexError? || e.Datafusion? || e.Io?
    ensures NoColon(Prefix(e)) && FromPrefix(Prefix(e), e.detail) == Some(e)
  {
    if e.LinesCodecError? {
      assert NoColon("LinesCodecError error");
    } else if e.RegexError? {
      assert NoColon("Regex error");
    } else if e.Datafusion? {
      assert NoColon("DataFusion error");
    } else if e.Io? {
      assert NoColon("I/O error");
    }
  }

  lemma PrefixGroup2(e: ApitapError)
    requires e.Reqwest? || e.HeaderName? || e.HeaderValue? || e.SerdeJson?
    ensures NoColon(Prefix(e)) && FromPrefix(Prefix(e), e.detail) == Some(e)
  {
    if e.Reqwest? {
      assert NoColon("HTTP request failed");
    } else if e.HeaderName? {
      assert NoColon("Invalid header name");
    } else if e.HeaderValue? {
      assert NoColon("Invalid header value");
    } else if e.SerdeJson? {
      assert NoColon("JSON serialization error");
    }
  }

  lemma PrefixGroup3(e: ApitapError)
    requires e.Sqlx? || e.JoinError? || e.Arrow? || e.Parquet?
    ensures NoColon(Prefix(e)) && FromPrefix(Prefix(e), e.detail) == Some(e)
  {
    if e.Sqlx? {
      assert NoColon("Database error");
    } else if e.JoinError? {
      assert NoColon("Task join error");
    } else if e.Arrow? {
      assert NoColon("Arrow error");
    } else if e.Parquet? {
      assert NoColon("Parquet error");
    }
  }

  lemma PrefixGroup4(e: ApitapError)
    requires e.SerdeArrow? || e.SerdeYaml? || e.WalkDir? || e.Minijinja?
    ensures NoColon(Prefix(e)) && FromPrefix(Prefix(e), e.detail) == Some(e)
  {
    if e.SerdeArrow? {
      assert NoColon("Serde Arrow error");
    } else if e.SerdeYaml? {
      assert NoColon("YAML error");
    } else if e.WalkDir? {
      assert NoColon("Directory walk error");
    } else if e.Minijinja? {
      assert NoColon("Template error");
    }
  }

  lemma PrefixGroup5(e: ApitapError)
    requires e.UrlParseError? || e.ScheduleError?
    ensures NoColon(Prefix(e)) && FromPrefix(Prefix(e), e.detail) == Some(e)
  {
    if e.UrlParseError? {
      assert NoColon("URL parse error");
    } else {
      assert NoColon("Schedule error");
    }
  }

  lemma PrefixGroup6(e: ApitapError)
    requires e.PoisonError? || e.ConfigError?
    ensures NoColon(Prefix(e)) && FromPrefix(Prefix(e), e.detail) == Some(e)
  {
    if e.PoisonError? {
      assert NoColon("Poison Error");
    } else {
      assert NoColon("Configuration error");
    }
  }

  lemma PrefixGroup7(e: ApitapError)
    requires e.PaginationError? || e.WriterError?
    ensures NoColon(Prefix(e)) && FromPrefix(Prefix(e), e.detail) == Some(e)
  {
    if e.PaginationError? {
      assert NoColon("Pagination error");
    } else {
      assert NoColon("Writer error");
    }
  }

  lemma PrefixGroup8(e: ApitapError)
    requires e.PipelineError? || e.UnsupportedSink?
    ensures NoColon(Prefix(e)) && FromPrefix(Prefix(e), e.detail) == Some(e)
  {
    if e.PipelineError? {
      assert NoColon("Pipeline error");
    } else {
      assert NoColon("Unsupported sink");
    }
  }

  lemma PrefixGroup9(e: ApitapError)
    requires e.MergeError? || e.DataTypeError?
    ensures NoColon(Prefix(e)) && FromPrefix(Prefix(e), e.detail) == Some(e)
  {
    if e.MergeError? {
      assert NoColon("Merge Error");
    } else {
      assert NoColon("Data Type Error");
    }
  }

  lemma PrefixGroup10(e: ApitapError)
    requires e.FromEnvError? || e.ReqwestMiddlewareError?
    ensures NoColon(Prefix(e)) && FromPrefix(Prefix(e), e.detail) == Some(e)
  {
    if e.FromEnvError? {
      assert NoColon("Tracing From Env Error");
    } else {
      assert NoColon("Reqwest Middleware Error");
    }
  }

  /** No prefix contains ':', and `FromPrefix` undoes `Prefix` (no two variants share a prefix).
      The enum's variants are checked a few at a time. */
  lemma PrefixRoundTrip(e: ApitapError)
    ensures NoColon(Prefix(e)) && FromPrefix(Prefix(e), e.detail) == Some(e)
  {
    if e.LinesCodecError? || e.RegexError? || e.Datafusion? || e.Io? {
      PrefixGroup1(e);
    } else if e.Reqwest? || e.HeaderName? || e.HeaderValue? || e.SerdeJson? {
      PrefixGroup2(e);
    } else if e.Sqlx? || e.JoinError? || e.Arrow? || e.Parquet? {
      PrefixGroup3(e);
    } else if e.SerdeArrow? || e.SerdeYaml? || e.WalkDir? || e.Minijinja? {
      PrefixGroup4(e);
    } else if e.UrlParseError? || e.ScheduleError? {
      PrefixGroup5(e);
    } else if e.PoisonError? || e.ConfigError? {
      PrefixGroup6(e);
    } else if e.PaginationError? || e.WriterError? {
      PrefixGroup7(e);
    } else if e.PipelineError? || e.UnsupportedSink? {
      PrefixGroup8(e);
    } else if e.MergeError? || e.DataTypeError? {
      PrefixGroup9(e);
    } else {
      PrefixGroup10(e);
    }
  }

  /** `Display` loses nothing: the variant and the payload can be read back
      from the string, because no prefix contains ": ". */
  lemma {:induction false} DisplayRoundTrip(e: ApitapError)
    ensures ParseDisplay(Display(e)) == Some(e)
  {
    var p := Prefix(e);
    var s := Display(e);
    PrefixRoundTrip(e);
    assert s[..|p|] == p;
    assert s[|p|] == ':' && s[|p| + 1] == ' ';
    assert s[|p| + 2..] == e.detail;
    forall j | 0 <= j < |p| ensures s[j] != ':' {
      assert s[j] == p[j];
    }
    assert FindSeparator(s, 0) == Some(|p|);
  }

  /** Every variant displays as its fixed prefix, then ": ", then the payload. */
  lemma DisplayShape(e: ApitapError)
    ensures |Display(e)| == |Prefix(e)| + 2 + |e.detail|
    ensures Display(e)[..|Prefix(e)|] == Prefix(e)
    ensures Display(e)[|Prefix(e)|..|Prefix(e)| + 2] == ": "
    ensures Display(e)[|Prefix(e)| + 2..] == e.detail
  {
  }

  lemma ConfigErrorDisplay(m: string)
    ensures Display(ConfigError(m)) == "Configuration error: " + m
  {
  }

  lemma PipelineErrorDisplay(m: string)
    ensures Display(PipelineError(m)) == "Pipeline error: " + m
  {
  }

  /** The display of a writer error contains "Writer error" (at its start). */
  lemma WriterErrorDisplay(m: string)
    ensures Display(WriterError(m))[..12] == "Writer error"
  {
  }

  lemma ConfigErrorExample()
    ensures Display(ConfigError("missing url")) == "Configuration error: missing url"
  {
  }
}
