/** Streaming schema inference over JSON records.

    Each key seen in the first hundred records gets a `FieldInference`: a
    `FieldType` joined over every value the key took, and a nullable flag
    set by an explicit `null`. The JSON number's float/integer distinction
    is kept as a flag; the value itself plays no part. */
module Schema {

  import opened Wrappers
  import opened Errors

  datatype Json =
    | Null
    | Bool(b: bool)
    | Number(isFloat: bool)
    | Str(s: string)
    | Array(items: seq<Json>)
    | Object(fields: map<string, Json>)

  datatype FieldType = Unknown | Boolean | Int64 | Float64 | String | List | Struct

  // ---- The merge table ----

  /** `FieldType::merge`, case by case in the order the source lists them. */
  function Merge(a: FieldType, b: FieldType): FieldType {
    match (a, b)
    case (Unknown, t) => t
    case (t, Unknown) => t
    case (Boolean, Boolean) => Boolean
    case (Int64, Int64) => Int64
    case (Int64, Float64) => Float64
    case (Float64, Int64) => Float64
    case (Float64, Float64) => Float64
    case (String, _) => String
    case (_, String) => String
    case (List, List) => List
    case (Struct, Struct) => Struct
    case _ => String
  }

  /** The order the merge table is the join of: `Unknown` below everything,
      `String` above everything, `Int64` below `Float64`, the rest unrelated. */
  predicate Below(a: FieldType, b: FieldType) {
    a == Unknown || a == b || b == String || (a == Int64 && b == Float64)
  }

  lemma BelowIsOrder(a: FieldType, b: FieldType, c: FieldType)
    ensures Below(a, a)
    ensures Below(a, b) && Below(b, a) ==> a == b
    ensures Below(a, b) && Below(b, c) ==> Below(a, c)
  {
  }

  /** `merge` is the least upper bound in that order. */
  lemma MergeIsJoin(a: FieldType, b: FieldType, c: FieldType)
    ensures Below(a, Merge(a, b)) && Below(b, Merge(a, b))
    ensures Below(a, c) && Below(b, c) ==> Below(Merge(a, b), c)
  {
  }

  lemma MergeCommutative(a: FieldType, b: FieldType)
    ensures Merge(a, b) == Merge(b, a)
  {
  }

  lemma MergeAssociative(a: FieldType, b: FieldType, c: FieldType)
    ensures Merge(Merge(a, b), c) == Merge(a, Merge(b, c))
  {
  }

  lemma MergeIdempotent(a: FieldType)
    ensures Merge(a, a) == a
  {
  }

  /** `Unknown` is the identity and `String` absorbs everything. */
  lemma MergeUnit(a: FieldType)
    ensures Merge(Unknown, a) == a && Merge(a, Unknown) == a
    ensures Merge(String, a) == String && Merge(a, String) == String
  {
  }

  /** Two distinct known types merge to `Float64` when they are the two
      numeric ones and to `String` otherwise. */
  lemma MergeDistinct(a: FieldType, b: FieldType)
    requires a != b && a != Unknown && b != Unknown
    ensures Merge(a, b) == (if {a, b} == {Int64, Float64} then Float64 else String)
  {
  }

  // ---- One field ----

  datatype FieldInference = FieldInference(dataType: FieldType, nullable: bool)

  const NewInference: FieldInference := FieldInference(Unknown, false)

  /** The type a single JSON value counts as. Arrays and objects are kept as
      their JSON text, so they count as strings; `null` adds no type. */
  function Kind(v: Json): (t: FieldType)
    ensures t != List && t != Struct
    ensures t == Unknown <==> v.Null?
  {
    match v
    case Null => Unknown
    case Bool(_) => Boolean
    case Number(isFloat) => if isFloat then Float64 else Int64
    case Str(_) => String
    case Array(_) => String
    case Object(_) => String
  }

  /** `FieldInference::observe`. */
  function Observe(f: FieldInference, v: Json): (r: FieldInference)
    ensures r.dataType == Merge(f.dataType, Kind(v))
    ensures r.nullable <==> f.nullable || v.Null?
  {
    match v
    case Null => f.(nullable := true)
    case Bool(_) => f.(dataType := Merge(f.dataType, Boolean))
    case Number(isFloat) =>
      if isFloat then f.(dataType := Merge(f.dataType, Float64))
      else f.(dataType := Merge(f.dataType, Int64))
    case Str(_) => f.(dataType := Merge(f.dataType, String))
    case Array(_) => f.(dataType := Merge(f.dataType, String))
    case Object(_) => f.(dataType := Merge(f.dataType, String))
  }

  /** A `null` marks the field nullable and leaves its type alone. */
  lemma ObserveNull(f: FieldInference)
    ensures Observe(f, Null) == FieldInference(f.dataType, true)
  {
  }

  datatype ArrowType = ArrowUtf8 | ArrowBoolean | ArrowInt64 | ArrowFloat64 | ArrowListOfUtf8

  /** `FieldInference::to_data_type`: the types with no column of their own
      are stored as text. */
  function ToDataType(t: FieldType): (r: ArrowType)
    ensures r == ArrowUtf8 <==> t in {Unknown, String, Struct}
    ensures r == ArrowListOfUtf8 <==> t == List
    ensures r == ArrowBoolean <==> t == Boolean
    ensures r == ArrowInt64 <==> t == Int64
    ensures r == ArrowFloat64 <==> t == Float64
  {
    match t
    case Unknown => ArrowUtf8
    case Boolean => ArrowBoolean
    case Int64 => ArrowInt64
    case Float64 => ArrowFloat64
    case String => ArrowUtf8
    case List => ArrowListOfUtf8
    case Struct => ArrowUtf8
  }

  // ---- All fields ----

  type Fields = map<string, FieldInference>

  function Entry(ft: Fields, k: string): FieldInference {
    if k in ft then ft[k] else NewInference
  }

  /** One record: every key of an object observes its value, a key seen for
      the first time starting from `NewInference`; anything but an object
      adds nothing. */
  function Absorb(ft: Fields, v: Json): (r: Fields)
    ensures !v.Object? ==> r == ft
    ensures v.Object? ==> r.Keys == ft.Keys + v.fields.Keys
  {
    if v.Object? then
      map k | k in ft.Keys + v.fields.Keys ::
        if k in v.fields then Observe(Entry(ft, k), v.fields[k]) else ft[k]
    else ft
  }

  /** The field table after the records `items`, in order. */
  function Scan(items: seq<Json>): Fields
    decreases |items|
  {
    if |items| == 0 then map[]
    else Absorb(Scan(items[..|items| - 1]), items[|items| - 1])
  }

  /** Record `i` is an object with key `k`. */
  predicate HasKey(items: seq<Json>, i: int, k: string) {
    0 <= i < |items| && items[i].Object? && k in items[i].fields
  }

  /** The value key `k` has in record `i`. */
  function ValueAt(items: seq<Json>, i: int, k: string): Json
    requires HasKey(items, i, k)
  {
    items[i].fields[k]
  }

  lemma HasKeyPrefix(items: seq<Json>, i: int, k: string)
    requires |items| > 0 && 0 <= i < |items| - 1
    ensures HasKey(items, i, k) <==> HasKey(items[..|items| - 1], i, k)
    ensures HasKey(items, i, k) ==> ValueAt(items, i, k) == ValueAt(items[..|items| - 1], i, k)
  {
  }

  /** The table holds exactly the keys some object record has. */
  lemma {:induction false} ScanKeys(items: seq<Json>, k: string)
    ensures k in Scan(items) <==> exists i :: HasKey(items, i, k)
    decreases |items|
  {
    if |items| > 0 {
      var n := |items| - 1;
      ScanKeys(items[..n], k);
      if k in Scan(items) {
        if k in Scan(items[..n]) {
          var i :| HasKey(items[..n], i, k);
          HasKeyPrefix(items, i, k);
        } else {
          assert HasKey(items, n, k);
        }
      }
      if i :| HasKey(items, i, k) {
        if i < n {
          HasKeyPrefix(items, i, k);
          assert k in Scan(items[..n]);
        }
      }
    }
  }

  /** The type of a key is an upper bound of the kinds of all its values... */
  lemma {:induction false} ScanUpper(items: seq<Json>, k: string, i: int)
    requires HasKey(items, i, k)
    ensures k in Scan(items) && Below(Kind(ValueAt(items, i, k)), Scan(items)[k].dataType)
    decreases |items|
  {
    var n := |items| - 1;
    var prev := Scan(items[..n]);
    var last := items[n];
    if i < n {
      HasKeyPrefix(items, i, k);
      ScanUpper(items[..n], k, i);
      if last.Object? && k in last.fields {
        MergeIsJoin(prev[k].dataType, Kind(last.fields[k]), String);
        BelowIsOrder(Kind(ValueAt(items, i, k)), prev[k].dataType, Scan(items)[k].dataType);
      }
    } else {
      MergeIsJoin(Entry(prev, k).dataType, Kind(last.fields[k]), String);
    }
  }

  /** ...and below every other upper bound of them. */
  lemma {:induction false} ScanLeast(items: seq<Json>, k: string, c: FieldType)
    requires k in Scan(items)
    requires forall i | HasKey(items, i, k) :: Below(Kind(ValueAt(items, i, k)), c)
    ensures Below(Scan(items)[k].dataType, c)
    decreases |items|
  {
    var n := |items| - 1;
    var prev := Scan(items[..n]);
    var last := items[n];
    forall i | HasKey(items[..n], i, k)
      ensures Below(Kind(ValueAt(items[..n], i, k)), c)
    {
      HasKeyPrefix(items, i, k);
    }
    if k in prev {
      ScanLeast(items[..n], k, c);
    }
    if last.Object? && k in last.fields {
      assert HasKey(items, n, k);
      MergeIsJoin(Entry(prev, k).dataType, Kind(last.fields[k]), c);
    }
  }

  /** A key is nullable exactly when some record gives it an explicit
      `null`; a key merely missing from some records is not. */
  lemma {:induction false} ScanNullable(items: seq<Json>, k: string)
    requires k in Scan(items)
    ensures Scan(items)[k].nullable <==> NullSomewhere(items, k)
    decreases |items|
  {
    var n := |items| - 1;
    var prev := Scan(items[..n]);
    var last := items[n];
    NullSomewhereSnoc(items, k);
    if k in prev {
      ScanNullable(items[..n], k);
    } else {
      ScanKeys(items[..n], k);
    }
    if last.Object? && k in last.fields {
      assert Scan(items)[k] == Observe(Entry(prev, k), last.fields[k]);
    } else {
      assert Scan(items)[k] == prev[k];
    }
  }

  /** Some record gives key `k` an explicit `null`. */
  ghost predicate NullSomewhere(items: seq<Json>, k: string) {
    exists i :: HasKey(items, i, k) && ValueAt(items, i, k).Null?
  }

  lemma NullSomewhereSnoc(items: seq<Json>, k: string)
    requires |items| > 0
    ensures var n := |items| - 1;
      NullSomewhere(items, k) <==>
        NullSomewhere(items[..n], k) || (HasKey(items, n, k) && ValueAt(items, n, k).Null?)
  {
    var n := |items| - 1;
    if NullSomewhere(items, k) {
      var i :| HasKey(items, i, k) && ValueAt(items, i, k).Null?;
      if i < n {
        HasKeyPrefix(items, i, k);
      }
    }
    if NullSomewhere(items[..n], k) {
      var i :| HasKey(items[..n], i, k) && ValueAt(items[..n], i, k).Null?;
      HasKeyPrefix(items, i, k);
    }
  }

  /** Observation never produces the list or struct types. */
  lemma {:induction false} ScanNeverNested(items: seq<Json>, k: string)
    requires k in Scan(items)
    ensures Scan(items)[k].dataType !in {List, Struct}
    decreases |items|
  {
    var n := |items| - 1;
    if k in Scan(items[..n]) {
      ScanNeverNested(items[..n], k);
    }
  }

  // ---- The stream ----

  /** `MIN_SAMPLES`: the number of records read before stopping. */
  const MinSamples: nat := 100

  /** The error of the first failed item, if any. */
  function FirstError(rs: seq<Result<Json>>): (r: Option<ApitapError>)
    decreases |rs|
  {
    if |rs| == 0 then None
    else
      match FirstError(rs[..|rs| - 1])
      case Some(e) => Some(e)
      case None => if rs[|rs| - 1].Err? then Some(rs[|rs| - 1].error) else None
  }

  predicate AllOk(rs: seq<Result<Json>>) {
    forall i | 0 <= i < |rs| :: rs[i].Ok?
  }

  lemma {:induction false} FirstErrorNone(rs: seq<Result<Json>>)
    ensures FirstError(rs).None? <==> AllOk(rs)
    decreases |rs|
  {
    if |rs| > 0 {
      FirstErrorNone(rs[..|rs| - 1]);
    }
  }

  /** `FirstError` is the error of the leftmost item that failed. */
  lemma {:induction false} FirstErrorIsLeftmost(rs: seq<Result<Json>>)
    requires FirstError(rs).Some?
    ensures exists i :: 0 <= i < |rs| && rs[i] == Err(FirstError(rs).value) && AllOk(rs[..i])
    decreases |rs|
  {
    var n := |rs| - 1;
    if FirstError(rs[..n]).Some? {
      FirstErrorIsLeftmost(rs[..n]);
      var i :| 0 <= i < n && rs[..n][i] == Err(FirstError(rs[..n]).value) && AllOk(rs[..n][..i]);
      assert rs[..n][..i] == rs[..i];
    } else {
      FirstErrorNone(rs[..n]);
      assert rs[..n] == rs[..n];
    }
  }

  /** An error among the first items stays the answer however many more items follow. */
  lemma {:induction false} FirstErrorExtends(rs: seq<Result<Json>>, i: nat, n: nat)
    requires i <= n <= |rs| && FirstError(rs[..i]).Some?
    ensures FirstError(rs[..n]) == FirstError(rs[..i])
    decreases n - i
  {
    if i < n {
      FirstErrorExtends(rs, i, n - 1);
      assert rs[..n][..n - 1] == rs[..n - 1];
    }
  }

  /** The JSON values of items that all succeeded. */
  function Values(rs: seq<Result<Json>>): (vs: seq<Json>)
    requires AllOk(rs)
    ensures |vs| == |rs|
  {
    seq(|rs|, i requires 0 <= i < |rs| => rs[i].value)
  }

  /** The items read: the first `MinSamples`, or all of a shorter stream. */
  function Consumed(stream: seq<Result<Json>>): seq<Result<Json>> {
    if |stream| <= MinSamples then stream else stream[..MinSamples]
  }

  datatype SchemaField = SchemaField(dataType: ArrowType, nullable: bool)

  const NoFieldsMessage: string := "No fields found in JSON stream"

  /** The schema of a finished table: one field per key. */
  function Finish(ft: Fields): (r: Result<map<string, SchemaField>>)
    ensures r.Err? <==> |ft| == 0
    ensures r.Err? ==> r.error == PipelineError(NoFieldsMessage)
    ensures r.Ok? ==> r.value.Keys == ft.Keys
    ensures r.Ok? ==> forall k | k in ft :: r.value[k] == SchemaField(ToDataType(ft[k].dataType), ft[k].nullable)
  {
    if |ft| == 0 then Err(PipelineError(NoFieldsMessage))
    else Ok(map k | k in ft :: SchemaField(ToDataType(ft[k].dataType), ft[k].nullable))
  }

  /** What `infer_schema_streaming` computes, read all at once. */
  function InferSchema(stream: seq<Result<Json>>): Result<map<string, SchemaField>> {
    var consumed := Consumed(stream);
    match FirstError(consumed)
    case Some(e) => Err(e)
    case None =>
      FirstErrorNone(consumed);
      Finish(Scan(Values(consumed)))
  }

  /** `infer_schema_streaming`: pull items one at a time, return the first
      error, and stop after `MinSamples` items. */
  method InferSchemaStreaming(stream: seq<Result<Json>>) returns (r: Result<map<string, SchemaField>>)
    ensures r == InferSchema(stream)
  {
    var fieldTypes: Fields := map[];
    var samplesSeen := 0;
    var i := 0;
    while i < |stream|
      invariant 0 <= i <= |stream| && i < MinSamples && samplesSeen == i
      invariant AllOk(stream[..i])
      invariant fieldTypes == Scan(Values(stream[..i]))
    {
      var result := stream[i];
      if result.Err? {
        assert stream[..i + 1][..i] == stream[..i];
        FirstErrorNone(stream[..i]);
        assert FirstError(stream[..i + 1]) == Some(result.error);
        FirstErrorExtends(stream, i + 1, |Consumed(stream)|);
        assert Consumed(stream) == stream[..|Consumed(stream)|];
        return Err(result.error);
      }
      ValuesSnoc(stream, i);
      fieldTypes := Absorb(fieldTypes, result.value);
      samplesSeen := samplesSeen + 1;
      i := i + 1;
      if samplesSeen >= MinSamples {
        break;
      }
    }
    assert Consumed(stream) == stream[..i];
    FirstErrorNone(stream[..i]);
    r := Finish(fieldTypes);
  }

  lemma ValuesSnoc(stream: seq<Result<Json>>, i: nat)
    requires i < |stream| && AllOk(stream[..i]) && stream[i].Ok?
    ensures AllOk(stream[..i + 1])
    ensures Values(stream[..i + 1]) == Values(stream[..i]) + [stream[i].value]
    ensures Scan(Values(stream[..i + 1])) == Absorb(Scan(Values(stream[..i])), stream[i].value)
  {
    assert AllOk(stream[..i + 1]);
    assert Values(stream[..i + 1]) == Values(stream[..i]) + [stream[i].value];
    var vs := Values(stream[..i + 1]);
    assert vs[..|vs| - 1] == Values(stream[..i]);
  }

  /** Items after the first `MinSamples` are never read. */
  lemma LaterItemsIgnored(a: seq<Result<Json>>, b: seq<Result<Json>>)
    requires |a| >= MinSamples
    ensures InferSchema(a + b) == InferSchema(a)
  {
    if |b| == 0 {
      assert a + b == a;
    } else {
      assert (a + b)[..MinSamples] == a[..MinSamples];
      if |a| == MinSamples {
        assert a[..MinSamples] == a;
      }
      assert Consumed(a + b) == Consumed(a);
    }
  }

  /** A failed item among those read is the result. */
  lemma ErrorAborts(stream: seq<Result<Json>>, i: nat)
    requires i < |stream| && i < MinSamples && stream[i].Err? && AllOk(stream[..i])
    ensures InferSchema(stream) == Err(stream[i].error)
  {
    var c := Consumed(stream);
    assert c[..i] == stream[..i] && c[..i + 1] == stream[..i + 1];
    FirstErrorNone(c[..i]);
    assert c[..i + 1][..i] == c[..i];
    FirstErrorExtends(c, i + 1, |c|);
    assert c[..|c|] == c;
  }

  /** Without an error, the schema has one field per key of some object
      record read, typed by the join of its values' kinds and nullable
      exactly when one of them is `null`. */
  lemma InferSchemaOk(stream: seq<Result<Json>>, k: string)
    requires AllOk(Consumed(stream))
    ensures var vs := Values(Consumed(stream));
      var r := InferSchema(stream);
      && (r.Err? <==> forall i, key :: !HasKey(vs, i, key))
      && (r.Ok? ==> (k in r.value <==> exists i :: HasKey(vs, i, k)))
  {
    var c := Consumed(stream);
    FirstErrorNone(c);
    var vs := Values(c);
    ScanKeys(vs, k);
    if InferSchema(stream).Err? {
      forall i, key ensures !HasKey(vs, i, key) {
        ScanKeys(vs, key);
      }
    } else {
      var key :| key in Scan(vs);
      ScanKeys(vs, key);
    }
  }

  /** Records that are not objects count toward the hundred but add no
      field: a hundred `null`s hide the object that follows them. */
  lemma NullsUseUpTheSample()
    ensures InferSchema(seq(MinSamples, _ => Ok(Null)) + [Ok(Object(map["id" := Number(false)]))])
         == Err(PipelineError(NoFieldsMessage))
  {
    var nulls: seq<Result<Json>> := seq(MinSamples, _ => Ok(Null));
    LaterItemsIgnored(nulls, [Ok(Object(map["id" := Number(false)]))]);
    assert Consumed(nulls) == nulls;
    FirstErrorNone(nulls);
    var vs := Values(nulls);
    forall key | key in Scan(vs) ensures false {
      ScanKeys(vs, key);
    }
  }
}
