/** SQL module templates: the capture state written by the `sink` and
    `use_source` template functions, `render_one`, and the discovery of
    template files by `list_sql_templates`.

    A template is modelled after lexing, as the sequence of pieces the
    renderer meets: literal text, and calls of template functions with the
    one string argument each registered function reads. */
module Templating {

  import opened Wrappers
  import opened Errors
  import opened Strings

  // ---- Capture state ----

  /** What the last `sink(...)` and `use_source(...)` calls recorded. */
  datatype RenderCapture = RenderCapture(sink: string, source: string)

  /** `RenderCapture::default()`. */
  const NoCapture: RenderCapture := RenderCapture("", "")

  datatype RenderedSql = RenderedSql(name: string, sql: string, capture: RenderCapture)

  /** A piece of a template. `arg` is the string the function reads: the
      `name` keyword for `sink`, the first argument for `use_source`; `None`
      when it is missing or not a string. */
  datatype Segment =
    | Text(text: string)
    | Call(callee: string, arg: Option<string>)

  /** The functions the environment registers. */
  const SinkFunction: string := "sink"
  const UseSourceFunction: string := "use_source"

  /** The renderer's own wording is not modelled; these details name the cause. */
  const MissingArgument: string := "missing argument"
  function UnknownFunction(f: string): string { "unknown function: " + f }
  function TemplateNotFound(name: string): string { "template not found: " + name }

  /** One piece: the capture after it and its output, or the error that stops
      the render. */
  function Step(s: Segment, cap: RenderCapture): (r: (RenderCapture, Result<string>))
    ensures r.1.Err? ==> r.0 == cap && r.1.error.Minijinja?
    ensures r.1.Ok? && s.Call? ==> s.arg.Some?
  {
    match s
    case Text(text) => (cap, Ok(text))
    case Call(f, arg) =>
      if f == SinkFunction then
        if arg.None? then (cap, Err(Minijinja(MissingArgument)))
        else (cap.(sink := arg.value), Ok(""))
      else if f == UseSourceFunction then
        if arg.None? then (cap, Err(Minijinja(MissingArgument)))
        else (cap.(source := arg.value), Ok(arg.value))
      else (cap, Err(Minijinja(UnknownFunction(f))))
  }

  /** `tmpl.render(())` against the shared capture: the pieces in order, each
      write landing in the capture as it happens, so the writes made before an
      error stay. */
  function Render(t: seq<Segment>, cap: RenderCapture): (r: (RenderCapture, Result<string>))
    ensures r.1.Err? ==> r.1.error.Minijinja?
    decreases |t|
  {
    if |t| == 0 then (cap, Ok(""))
    else
      var step := Step(t[0], cap);
      if step.1.Err? then step
      else
        var rest := Render(t[1..], step.0);
        if rest.1.Err? then rest
        else (rest.0, Ok(step.1.value + rest.1.value))
  }

  // ---- Reference meaning of a render ----

  /** A piece the environment can evaluate. */
  predicate Renders(s: Segment) {
    s.Text? || ((s.callee == SinkFunction || s.callee == UseSourceFunction) && s.arg.Some?)
  }

  /** The argument of the last successful call of `f` in `t`. */
  function LastWrite(t: seq<Segment>, f: string): Option<string>
    decreases |t|
  {
    if |t| == 0 then None
    else
      var s := t[|t| - 1];
      if s.Call? && s.callee == f && s.arg.Some? then Some(s.arg.value)
      else LastWrite(t[..|t| - 1], f)
  }

  /** What a piece contributes to the rendered text. */
  function Emitted(s: Segment): string {
    if s.Text? then s.text
    else if s.callee == UseSourceFunction && s.arg.Some? then s.arg.value
    else ""
  }

  /** The rendered text: every piece's contribution, in order. */
  function Output(t: seq<Segment>): string
    decreases |t|
  {
    if |t| == 0 then "" else Output(t[..|t| - 1]) + Emitted(t[|t| - 1])
  }

  /** The capture after rendering `t` from `cap`: the last write of each field
      wins, and a field nobody writes keeps its value. */
  function Captured(t: seq<Segment>, cap: RenderCapture): RenderCapture {
    RenderCapture(LastWrite(t, SinkFunction).GetOr(cap.sink),
                  LastWrite(t, UseSourceFunction).GetOr(cap.source))
  }

  lemma {:induction false} LastWriteCons(s: Segment, t: seq<Segment>, f: string)
    ensures LastWrite([s] + t, f)
         == if LastWrite(t, f).Some? then LastWrite(t, f) else LastWrite([s], f)
    decreases |t|
  {
    var st := [s] + t;
    if |t| > 0 {
      assert st[..|st| - 1] == [s] + t[..|t| - 1];
      assert st[|st| - 1] == t[|t| - 1];
      LastWriteCons(s, t[..|t| - 1], f);
    } else {
      assert st == [s];
    }
  }

  lemma {:induction false} OutputCons(s: Segment, t: seq<Segment>)
    ensures Output([s] + t) == Emitted(s) + Output(t)
    decreases |t|
  {
    var st := [s] + t;
    if |t| == 0 {
      assert st[..|st| - 1] == [];
    } else {
      assert st[..|st| - 1] == [s] + t[..|t| - 1];
      assert st[|st| - 1] == t[|t| - 1];
      OutputCons(s, t[..|t| - 1]);
    }
  }

  /** A render succeeds exactly when every piece is a text or a registered
      function given its argument. */
  lemma {:induction false} RenderOkIff(t: seq<Segment>, cap: RenderCapture)
    ensures Render(t, cap).1.Ok? <==> forall i :: 0 <= i < |t| ==> Renders(t[i])
    decreases |t|
  {
    if |t| > 0 {
      var step := Step(t[0], cap);
      RenderOkIff(t[1..], step.0);
      assert forall i :: 1 <= i < |t| ==> t[i] == t[1..][i - 1];
    }
  }

  /** A successful render outputs every piece's contribution in order and
      leaves the last write of each capture field. */
  lemma {:induction false} RenderValue(t: seq<Segment>, cap: RenderCapture)
    requires Render(t, cap).1.Ok?
    ensures Render(t, cap).1.value == Output(t)
    ensures Render(t, cap).0 == Captured(t, cap)
    decreases |t|
  {
    if |t| > 0 {
      var step := Step(t[0], cap);
      RenderValue(t[1..], step.0);
      assert t == [t[0]] + t[1..];
      OutputCons(t[0], t[1..]);
      LastWriteCons(t[0], t[1..], SinkFunction);
      LastWriteCons(t[0], t[1..], UseSourceFunction);
      assert LastWrite([t[0]], SinkFunction) == (if t[0] == Call(SinkFunction, Some(step.0.sink)) then Some(step.0.sink) else None);
    }
  }

  // ---- render_one ----

  /** Templates by name, as the environment's loader finds them. */
  type Loader = map<string, seq<Segment>>

  /** `render_one`: clears the shared capture, looks the template up, renders
      it, and returns a copy of the capture with the SQL. The first component
      is the shared capture afterwards. */
  function RenderOne(env: Loader, shared: RenderCapture, name: string): (r: (RenderCapture, Result<RenderedSql>))
    ensures r.1.Ok? ==> r.1.value.name == name && r.1.value.capture == r.0
    ensures r.1.Err? ==> r.1.error.Minijinja?
  {
    var cleared := shared.(sink := "", source := "");
    if name !in env then (cleared, Err(Minijinja(TemplateNotFound(name))))
    else
      var (cap, out) := Render(env[name], cleared);
      if out.Err? then (cap, Err(out.error))
      else (cap, Ok(RenderedSql(name, out.value, cap)))
  }

  /** `render_one` succeeds exactly when the template exists and every piece
      renders; then the SQL is the template's output and the capture holds the
      last `sink` and `use_source` arguments, or "" for a function never
      called. */
  lemma RenderOneSpec(env: Loader, shared: RenderCapture, name: string)
    ensures var r := RenderOne(env, shared, name);
      r.1.Ok? <==> name in env && forall i :: 0 <= i < |env[name]| ==> Renders(env[name][i])
    ensures var r := RenderOne(env, shared, name);
      r.1.Ok? ==> (r.1.value.sql == Output(env[name])
                   && r.1.value.capture == Captured(env[name], NoCapture))
  {
    if name in env {
      RenderOkIff(env[name], NoCapture);
      if Render(env[name], NoCapture).1.Ok? {
        RenderValue(env[name], NoCapture);
      }
    }
  }

  /** Nothing from an earlier render leaks into the next: the result and the
      capture afterwards do not depend on the capture beforehand. */
  lemma RenderOneForgets(env: Loader, s1: RenderCapture, s2: RenderCapture, name: string)
    ensures RenderOne(env, s1, name) == RenderOne(env, s2, name)
  {
    assert s1.(sink := "", source := "") == s2.(sink := "", source := "");
  }

  /** A missing template is an error, and the capture is left cleared. */
  lemma RenderOneMissing(env: Loader, shared: RenderCapture, name: string)
    requires name !in env
    ensures RenderOne(env, shared, name) == (NoCapture, Err(Minijinja(TemplateNotFound(name))))
  {
  }

  // ---- Examples from the template tests ----

  const SinkTemplate: seq<Segment> :=
    [Call(SinkFunction, Some("sink1")), Text("\n"), Call(UseSourceFunction, Some("source1"))]

  /** Rendering a template that writes both fields and then a plain one: the
      second result reports empty captures. */
  lemma ClearsPreviousCaptures()
    ensures var env: Loader := map["test1.sql" := SinkTemplate, "test2.sql" := [Text("SELECT 1;")]];
      var (shared1, r1) := RenderOne(env, NoCapture, "test1.sql");
      var (shared2, r2) := RenderOne(env, shared1, "test2.sql");
      r1 == Ok(RenderedSql("test1.sql", "\nsource1", RenderCapture("sink1", "source1")))
      && r2 == Ok(RenderedSql("test2.sql", "SELECT 1;", NoCapture))
  {
    RenderSinkTemplate();
    RenderPlain();
  }

  lemma RenderSinkTemplate()
    ensures Render(SinkTemplate, NoCapture) == (RenderCapture("sink1", "source1"), Ok("\nsource1"))
  {
    var t := SinkTemplate;
    RenderUseSource();
    assert t[1..] == [Text("\n"), Call(UseSourceFunction, Some("source1"))];
    assert t[1..][1..] == [Call(UseSourceFunction, Some("source1"))];
    assert "\n" + "source1" == "\nsource1";
    assert "" + "\nsource1" == "\nsource1";
  }

  lemma RenderUseSource()
    ensures Render([Call(UseSourceFunction, Some("source1"))], RenderCapture("sink1", ""))
         == (RenderCapture("sink1", "source1"), Ok("source1"))
  {
    assert "source1" + "" == "source1";
  }

  lemma RenderPlain()
    ensures Render([Text("SELECT 1;")], NoCapture) == (NoCapture, Ok("SELECT 1;"))
  {
    assert "SELECT 1;" + "" == "SELECT 1;";
  }

  /** `schedule` is not a registered function, so a template calling it does
      not render, and the capture it leaves holds nothing from the later
      `sink` call. */
  lemma ScheduleNotRegistered(shared: RenderCapture)
    ensures var t := [Call("schedule", Some("daily_job")), Text("\n"),
                      Call(SinkFunction, Some("postgres_target")), Text("\nSELECT * FROM scheduled_data;\n")];
      RenderOne(map["test.sql" := t], shared, "test.sql")
        == (NoCapture, Err(Minijinja(UnknownFunction("schedule"))))
  {
    assert "schedule" != SinkFunction && "schedule" != UseSourceFunction;
  }

  // ---- list_sql_templates ----

  /** One item of the directory walk: a path as its components, and whether
      it is a regular file; or an entry the walk could not read. */
  datatype WalkEntry = Entry(path: seq<string>, isFile: bool) | WalkFailure

  /** Index of the last '.' in `s`. */
  function LastDot(s: string): (r: Option<nat>)
    ensures r.Some? ==> r.value < |s| && s[r.value] == '.'
                        && forall j :: r.value < j < |s| ==> s[j] != '.'
    ensures r.None? ==> forall j :: 0 <= j < |s| ==> s[j] != '.'
    decreases |s|
  {
    if |s| == 0 then None
    else if s[|s| - 1] == '.' then Some(|s| - 1)
    else LastDot(s[..|s| - 1])
  }

  /** `Path::extension` of a file name: the text after the last '.', unless
      that dot is the first character or the name is "..". */
  function Extension(name: string): (r: Option<string>)
    ensures r.Some? ==> var k := |name| - |r.value| - 1;
      0 < k && name[k] == '.' && name[k + 1..] == r.value
      && forall j :: 0 <= j < |r.value| ==> r.value[j] != '.'
    ensures r.None? <==> name == ".." || forall j :: 0 < j < |name| ==> name[j] != '.'
  {
    if name == ".." then None
    else match LastDot(name)
      case None => None
      case Some(k) =>
        if k == 0 then None
        else
          Some(name[k + 1..])
  }

  /** A name made of a stem, a dot and a dot-free extension has that
      extension. */
  lemma ExtensionAfterDot(stem: string, ext: string)
    requires |stem| > 0 && |ext| > 0
    requires forall j :: 0 <= j < |ext| ==> ext[j] != '.'
    ensures Extension(stem + "." + ext) == Some(ext)
  {
    var name := stem + "." + ext;
    assert name[|stem|] == '.';
    assert forall j :: |stem| < j < |name| ==> name[j] == ext[j - |stem| - 1];
    assert name[|stem| + 1..] == ext;
  }

  /** The file has the extension "sql" in any letter case. */
  predicate IsSqlFile(path: seq<string>) {
    |path| > 0 && Extension(path[|path| - 1]).Some?
    && EqIgnoreAsciiCase(Extension(path[|path| - 1]).value, "sql")
  }

  /** `Path::strip_prefix` succeeds: `root` is a leading run of components. */
  predicate UnderRoot(root: seq<string>, path: seq<string>) {
    |root| <= |path| && path[..|root|] == root
  }

  /** The name an entry is listed under, or None when it is skipped. */
  function TemplateName(e: WalkEntry, root: seq<string>): Option<string> {
    if e.WalkFailure? || !e.isFile || !IsSqlFile(e.path) || !UnderRoot(root, e.path) then None
    else Some(Join(e.path[|root|..], "/"))
  }

  /** The names pushed, in walk order. */
  function Collect(entries: seq<WalkEntry>, root: seq<string>): seq<string>
    decreases |entries|
  {
    if |entries| == 0 then []
    else
      var head := TemplateName(entries[0], root);
      (if head.Some? then [head.value] else []) + Collect(entries[1..], root)
  }

  /** `list_sql_templates`: the names of the SQL files under `root`, sorted.
      The walk's own failures are skipped, so the result is never an error. */
  function ListSqlTemplates(entries: seq<WalkEntry>, root: seq<string>): (r: Result<seq<string>>)
    ensures r.Ok? && Sorted(r.value)
  {
    Ok(Sort(Collect(entries, root)))
  }

  lemma {:induction false} CollectMembers(entries: seq<WalkEntry>, root: seq<string>, x: string)
    ensures x in Collect(entries, root)
        <==> exists i :: 0 <= i < |entries| && TemplateName(entries[i], root) == Some(x)
    decreases |entries|
  {
    if |entries| > 0 {
      CollectMembers(entries[1..], root, x);
      assert forall i :: 1 <= i < |entries| ==> entries[i] == entries[1..][i - 1];
      if exists i :: 0 <= i < |entries| && TemplateName(entries[i], root) == Some(x) {
        var i :| 0 <= i < |entries| && TemplateName(entries[i], root) == Some(x);
        if i > 0 {
          assert TemplateName(entries[1..][i - 1], root) == Some(x);
        }
      }
    }
  }

  /** A name is listed exactly when some walked entry is a readable regular
      file with a case-insensitive ".sql" extension under `root`, whose
      components after `root` joined by "/" give that name. */
  lemma Listed(entries: seq<WalkEntry>, root: seq<string>, x: string)
    ensures x in ListSqlTemplates(entries, root).value
        <==> exists i :: 0 <= i < |entries| && TemplateName(entries[i], root) == Some(x)
  {
    CollectMembers(entries, root, x);
    var c := Collect(entries, root);
    assert x in Sort(c) <==> x in multiset(Sort(c));
    assert x in c <==> x in multiset(c);
  }

  lemma {:induction false} CollectAppend(a: seq<WalkEntry>, b: seq<WalkEntry>, root: seq<string>)
    ensures Collect(a + b, root) == Collect(a, root) + Collect(b, root)
    decreases |a|
  {
    if |a| > 0 {
      assert (a + b)[1..] == a[1..] + b;
      CollectAppend(a[1..], b, root);
    } else {
      assert a + b == b;
    }
  }

  /** The names collected depend only on which entries the walk yields, not
      on their order. */
  lemma {:induction false} CollectPermutation(a: seq<WalkEntry>, b: seq<WalkEntry>, root: seq<string>)
    requires multiset(a) == multiset(b)
    ensures multiset(Collect(a, root)) == multiset(Collect(b, root))
    decreases |a|
  {
    if |a| == 0 {
      assert |b| == |multiset(b)| == 0;
    } else {
      var x := a[0];
      assert x in multiset(b);
      var j :| 0 <= j < |b| && b[j] == x;
      var b' := b[..j] + b[j + 1..];
      PermutationRest(a, b, j);
      CollectPermutation(a[1..], b', root);
      CollectRemove(b, j, root);
      CollectRemove(a, 0, root);
      assert a[..0] + a[1..] == a[1..];
    }
  }

  lemma PermutationRest<T>(a: seq<T>, b: seq<T>, j: int)
    requires multiset(a) == multiset(b) && |a| > 0
    requires 0 <= j < |b| && b[j] == a[0]
    ensures multiset(a[1..]) == multiset(b[..j] + b[j + 1..])
  {
    MultisetRemove(b, j);
    assert a == [a[0]] + a[1..];
    assert multiset(a) == multiset{a[0]} + multiset(a[1..]);
  }

  lemma MultisetRemove<T>(s: seq<T>, j: int)
    requires 0 <= j < |s|
    ensures multiset(s[..j] + s[j + 1..]) == multiset(s) - multiset{s[j]}
  {
    assert s == s[..j] + [s[j]] + s[j + 1..];
  }

  /** Taking entry `j` out of the walk takes its name (if any) out of the
      names collected. */
  lemma CollectRemove(b: seq<WalkEntry>, j: int, root: seq<string>)
    requires 0 <= j < |b|
    ensures multiset(Collect(b, root))
         == multiset(Collect([b[j]], root)) + multiset(Collect(b[..j] + b[j + 1..], root))
  {
    assert b == b[..j] + [b[j]] + b[j + 1..];
    CollectAppend(b[..j] + [b[j]], b[j + 1..], root);
    CollectAppend(b[..j], [b[j]], root);
    CollectAppend(b[..j], b[j + 1..], root);
  }

  /** The listing does not depend on the order in which the directory is
      walked. */
  lemma WalkOrderIrrelevant(a: seq<WalkEntry>, b: seq<WalkEntry>, root: seq<string>)
    requires multiset(a) == multiset(b)
    ensures ListSqlTemplates(a, root) == ListSqlTemplates(b, root)
  {
    CollectPermutation(a, b, root);
    SortedUnique(Sort(Collect(a, root)), Sort(Collect(b, root)));
  }

  /** An entry the walk cannot read changes nothing. */
  lemma WalkFailureSkipped(a: seq<WalkEntry>, b: seq<WalkEntry>, root: seq<string>)
    ensures ListSqlTemplates(a + [WalkFailure] + b, root) == ListSqlTemplates(a + b, root)
  {
    CollectAppend(a + [WalkFailure], b, root);
    CollectAppend(a, [WalkFailure], root);
    CollectAppend(a, b, root);
    assert Collect([WalkFailure], root) == [];
    assert Collect(a + [WalkFailure] + b, root) == Collect(a + b, root);
  }

  /** A dot file named ".sql" has no extension, so it is not listed. */
  lemma DotFileNotListed()
    ensures Extension(".sql") == None && Extension("..") == None
    ensures !IsSqlFile([".sql"])
  {
    var n := ".sql";
    assert forall j :: 0 < j < |n| ==> n[j] != '.';
  }

  /** The extension is compared without regard to ASCII case. */
  lemma UpperCaseListed()
    ensures IsSqlFile(["query2.SQL"]) && IsSqlFile(["query3.Sql"])
  {
    SqlAnyCase("query2", "SQL");
    assert "query2" + "." + "SQL" == "query2.SQL";
    SqlAnyCase("query3", "Sql");
    assert "query3" + "." + "Sql" == "query3.Sql";
  }

  lemma SqlAnyCase(stem: string, ext: string)
    requires |stem| > 0 && |ext| == 3 && AsciiLower(ext[0]) == 's' && AsciiLower(ext[1]) == 'q' && AsciiLower(ext[2]) == 'l'
    ensures IsSqlFile([stem + "." + ext])
  {
    ExtensionAfterDot(stem, ext);
  }

  lemma OtherExtensionSkipped()
    ensures !IsSqlFile(["readme.txt"])
  {
    ExtensionAfterDot("readme", "txt");
    assert "readme" + "." + "txt" == "readme.txt";
  }

  /** A file in a sub-directory is listed by its relative path. */
  lemma SubdirectoryName(root: seq<string>)
    ensures TemplateName(Entry(root + ["subdir", "query3.sql"], true), root) == Some("subdir/query3.sql")
  {
    var p := root + ["subdir", "query3.sql"];
    assert p[..|root|] == root;
    assert p[|root|..] == ["subdir", "query3.sql"];
    assert p[|p| - 1] == "query3.sql";
    ExtensionAfterDot("query3", "sql");
    assert "query3" + "." + "sql" == "query3.sql";
    var rel := ["subdir", "query3.sql"];
    assert rel[1..] == ["query3.sql"];
    assert Join(rel, "/") == "subdir" + "/" + "query3.sql";
    assert "subdir" + "/" + "query3.sql" == "subdir/query3.sql";
  }

  const WalkedOutOfOrder: seq<string> := ["zebra.sql", "apple.sql", "banana.sql"]

  function InRoot(root: seq<string>, names: seq<string>): seq<WalkEntry> {
    seq(|names|, k requires 0 <= k < |names| => Entry(root + [names[k]], true))
  }

  /** Files walked as zebra, apple, banana are listed as apple, banana, zebra. */
  lemma SortedExample(root: seq<string>)
    ensures ListSqlTemplates(InRoot(root, WalkedOutOfOrder), root).value
         == Alphabetical
  {
    WalkedNames(root);
    SortThree();
  }

  lemma WalkedNames(root: seq<string>)
    ensures Collect(InRoot(root, WalkedOutOfOrder), root) == WalkedOutOfOrder
  {
    WalkedListed(root);
    CollectAllListed(root, WalkedOutOfOrder);
  }

  lemma WalkedListed(root: seq<string>)
    ensures AllListed(root, WalkedOutOfOrder)
  {
    SqlFileInRoot(root, "zebra");
    assert "zebra" + ".sql" == "zebra.sql";
    SqlFileInRoot(root, "apple");
    assert "apple" + ".sql" == "apple.sql";
    SqlFileInRoot(root, "banana");
    assert "banana" + ".sql" == "banana.sql";
  }

  /** Files directly under `root` that are all listed come out in walk order. */
  lemma {:induction false} CollectAllListed(root: seq<string>, names: seq<string>)
    requires AllListed(root, names)
    ensures Collect(InRoot(root, names), root) == names
    decreases |names|
  {
    if |names| > 0 {
      InRootCons(root, names);
      CollectAllListed(root, names[1..]);
      assert names == [names[0]] + names[1..];
    }
  }

  predicate AllListed(root: seq<string>, names: seq<string>) {
    forall k :: 0 <= k < |names| ==> TemplateName(Entry(root + [names[k]], true), root) == Some(names[k])
  }

  lemma InRootCons(root: seq<string>, names: seq<string>)
    requires |names| > 0 && AllListed(root, names)
    ensures InRoot(root, names) == [Entry(root + [names[0]], true)] + InRoot(root, names[1..])
    ensures TemplateName(Entry(root + [names[0]], true), root) == Some(names[0])
    ensures AllListed(root, names[1..])
  {
    assert forall k :: 0 <= k < |names[1..]| ==> names[1..][k] == names[k + 1];
  }

  const Alphabetical: seq<string> := ["apple.sql", "banana.sql", "zebra.sql"]

  lemma SortThree()
    ensures Sort(WalkedOutOfOrder) == Alphabetical
  {
    AlphabeticalSorted();
    assert multiset(WalkedOutOfOrder) == multiset(Alphabetical);
    SortedUnique(Sort(WalkedOutOfOrder), Alphabetical);
  }

  lemma AlphabeticalSorted()
    ensures Sorted(Alphabetical)
  {
    assert LexLe(Alphabetical[0], Alphabetical[1]);
    assert LexLe(Alphabetical[1], Alphabetical[2]);
    assert LexLe(Alphabetical[0], Alphabetical[2]);
  }

  /** A file `stem.sql` directly under `root` is listed by its own name. */
  lemma SqlFileInRoot(root: seq<string>, stem: string)
    requires |stem| > 0 && forall j :: 0 <= j < |stem| ==> stem[j] != '.'
    ensures TemplateName(Entry(root + [stem + ".sql"], true), root) == Some(stem + ".sql")
  {
    ExtensionAfterDot(stem, "sql");
    assert stem + "." + "sql" == stem + ".sql";
    var p := root + [stem + ".sql"];
    assert p[..|root|] == root;
    assert p[|root|..] == [stem + ".sql"];
  }
}
