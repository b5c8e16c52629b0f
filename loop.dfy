/** The single-pass loop of scripts/loop.py: every task of the dataset whose
    `id` is not yet in the generated file gets one generation attempt; the
    script is routed to one of four files by two textual filters and by the
    outcome of running it, and six counters tally the routes.

    The language model and the subprocess are not part of this model: what
    the model returns for task `i`, and how running its script ends, is a
    `Generation` supplied by the caller. */
module Loop {
  import opened Wrappers
  import opened Text
  import opened Store
  import Evaluator
  import Generator

  const DataPath := "data/dataset.jsonl"
  const GeneratedPath := "data/generated.jsonl"
  const NonPythonPath := "data/failed_outputs/non_python.jsonl"
  const TooShortPath := "data/failed_outputs/too_short.jsonl"
  const ErrorsPath := "data/failed_outputs/errors.jsonl"

  /** The ids recorded in a file's lines: a line that does not parse, or has
      no `id`, contributes nothing. */
  predicate IdRecorded(lines: seq<Line>, id: string) {
    exists k :: 0 <= k < |lines| && lines[k].Parsed? && "id" in lines[k].rec && lines[k].rec["id"] == id
  }

  /** `load_existing_ids(path)`: `None` is a file that does not exist. */
  method LoadExistingIds(file: Option<seq<Line>>) returns (ids: set<string>)
    ensures file.None? ==> ids == {}
    ensures file.Some? ==> forall id :: id in ids <==> IdRecorded(file.value, id)
  {
    ids := {};
    if file.None? {
      return;
    }
    var lines := file.value;
    var i := 0;
    while i < |lines|
      invariant 0 <= i <= |lines|
      invariant forall id :: id in ids <==> IdRecorded(lines[..i], id)
    {
      var line := lines[i];
      if line.Parsed? && "id" in line.rec {
        ids := ids + {line.rec["id"]};
      }
      forall id | IdRecorded(lines[..i + 1], id)
        ensures IdRecorded(lines[..i], id) || (line.Parsed? && "id" in line.rec && line.rec["id"] == id)
      {
        var k :| 0 <= k < i + 1 && lines[..i + 1][k].Parsed? && "id" in lines[..i + 1][k].rec
                 && lines[..i + 1][k].rec["id"] == id;
        if k < i {
          assert lines[..i][k] == lines[..i + 1][k];
        }
      }
      forall id | IdRecorded(lines[..i], id)
        ensures IdRecorded(lines[..i + 1], id)
      {
        var k :| 0 <= k < i && lines[..i][k].Parsed? && "id" in lines[..i][k].rec && lines[..i][k].rec["id"] == id;
        assert lines[..i + 1][k] == lines[..i][k];
      }
      if line.Parsed? && "id" in line.rec {
        assert lines[..i + 1][i] == line;
      }
      i := i + 1;
    }
    assert lines[..i] == lines;
  }

  /** What the single attempt of a task meets: the model raises, or it
      returns `text` and running the script would end with `run`. */
  datatype Generation =
    | GenRaised
    | Generated(text: string, run: Evaluator.ProcessOutcome)

  /** The route a task takes, one per counter. */
  datatype Route =
    | Skipped        // its id is already in the generated file
    | JsonLike       // `json_count`
    | TooShort       // `short_count`
    | Succeeded      // `success_count`
    | SyntaxFailure  // `syntax_error_count` (and `fail_count`)
    | OtherFailure   // `other_error_count` (and `fail_count`)

  /** One line appended to one file. */
  datatype Write = Write(path: string, rec: Record)

  /** What handling a task does. */
  datatype Handled = Handled(route: Route, write: Option<Write>)

  /** The task gets as far as a script: the sample has `instruction` and
      `input` and the model returned text. */
  predicate Scripted(sample: Record, g: Generation) {
    "instruction" in sample && "input" in sample && g.Generated?
  }

  /** The record appended to the errors file. */
  function ErrorRecord(sample: Record, script: string, stderr: string): (r: Record)
    requires "instruction" in sample && "input" in sample
    ensures r.Keys == {"instruction", "input", "generated", "error"}
    ensures r["instruction"] == sample["instruction"] && r["input"] == sample["input"]
    ensures r["generated"] == script && r["error"] == stderr
  {
    map["instruction" := sample["instruction"], "input" := sample["input"], "generated" := script, "error" := stderr]
  }

  /** The body of the `for sample in data` loop for one task. */
  function Handle(sample: Record, existing: set<string>, g: Generation,
                  generate: (string, string, string) -> string): Handled
    requires "id" in sample
  {
    if sample["id"] in existing then Handled(Skipped, None)
    else if !Scripted(sample, g) then Handled(OtherFailure, None)
    else
      var script := generate(sample["instruction"], sample["input"], g.text);
      var filed := Filter(sample, script);
      if filed.Some? then filed.value else Run(sample, script, g.run)
  }

  /** The two textual filters, JSON first: the route and write of a script
      they catch, or `None` when the script goes on to be run. */
  function Filter(sample: Record, script: string): Option<Handled> {
    var withOutput := sample["output" := script];
    if StartsWith(script, "{") || StartsWith(script, "[") then
      Some(Handled(JsonLike, Some(Write(NonPythonPath, withOutput))))
    else if |SplitLines(script)| < 2 then
      Some(Handled(TooShort, Some(Write(TooShortPath, withOutput))))
    else None
  }

  /** The route and write of a script that was run. */
  function Run(sample: Record, script: string, run: Evaluator.ProcessOutcome): Handled
    requires "instruction" in sample && "input" in sample
  {
    var result := Evaluator.EvaluateScript(run);
    if result.success then Handled(Succeeded, Some(Write(GeneratedPath, sample["output" := script])))
    else if Contains(result.stderr, "SyntaxError") then
      Handled(SyntaxFailure, Some(Write(ErrorsPath, ErrorRecord(sample, script, result.stderr))))
    else
      Handled(OtherFailure, Some(Write(ErrorsPath, ErrorRecord(sample, script, result.stderr))))
  }

  /** The routes as the source orders them: a known id is skipped with no
      write; a script that looks like JSON, or has fewer than two lines, is
      filed away without being run, the JSON test first; a run is a success
      exactly when the process exited with 0, and a failure is a syntax
      failure exactly when its stderr mentions `SyntaxError`. */
  lemma HandleRoutes(sample: Record, existing: set<string>, g: Generation,
                     generate: (string, string, string) -> string)
    requires "id" in sample
    ensures var h := Handle(sample, existing, g, generate);
            (h.route == Skipped <==> sample["id"] in existing)
            && (h.route == Skipped ==> h.write.None?)
            && (h.write.None? <==> h.route == Skipped || !Scripted(sample, g))
    ensures sample["id"] !in existing && Scripted(sample, g) ==>
      var script := generate(sample["instruction"], sample["input"], g.text);
      var h := Handle(sample, existing, g, generate);
      && (h.route == JsonLike <==> StartsWith(script, "{") || StartsWith(script, "["))
      && (h.route == TooShort <==>
            !(StartsWith(script, "{") || StartsWith(script, "[")) && |SplitLines(script)| < 2)
      && (h.route == Succeeded <==>
            !(StartsWith(script, "{") || StartsWith(script, "[")) && |SplitLines(script)| >= 2
            && g.run.Exited? && g.run.returnCode == 0)
      && (h.route == SyntaxFailure <==>
            !(StartsWith(script, "{") || StartsWith(script, "[")) && |SplitLines(script)| >= 2
            && !Evaluator.EvaluateScript(g.run).success
            && Contains(Evaluator.EvaluateScript(g.run).stderr, "SyntaxError"))
      && (h.route == OtherFailure <==>
            !(StartsWith(script, "{") || StartsWith(script, "[")) && |SplitLines(script)| >= 2
            && !Evaluator.EvaluateScript(g.run).success
            && !Contains(Evaluator.EvaluateScript(g.run).stderr, "SyntaxError"))
  {
  }

  /** The filters run before the script is: a JSON-like or too short script
      is routed the same whatever running it would have done. */
  lemma FiltersNeverRun(sample: Record, existing: set<string>, text: string,
                        run1: Evaluator.ProcessOutcome, run2: Evaluator.ProcessOutcome,
                        generate: (string, string, string) -> string)
    requires "id" in sample
    requires var h := Handle(sample, existing, Generated(text, run1), generate);
             h.route == JsonLike || h.route == TooShort
    ensures Handle(sample, existing, Generated(text, run2), generate)
            == Handle(sample, existing, Generated(text, run1), generate)
  {
    FiledBeforeRun(sample, existing, Generated(text, run1), generate);
    HandleFiled(sample, existing, Generated(text, run1), generate);
    HandleFiled(sample, existing, Generated(text, run2), generate);
  }

  /** A filed route comes from the filters. */
  lemma FiledBeforeRun(sample: Record, existing: set<string>, g: Generation,
                       generate: (string, string, string) -> string)
    requires "id" in sample
    requires var h := Handle(sample, existing, g, generate);
             h.route == JsonLike || h.route == TooShort
    ensures sample["id"] !in existing && Scripted(sample, g)
    ensures Filter(sample, generate(sample["instruction"], sample["input"], g.text)).Some?
  {
  }

  /** A script the filters catch is handled as they say. */
  lemma HandleFiled(sample: Record, existing: set<string>, g: Generation,
                    generate: (string, string, string) -> string)
    requires "id" in sample && sample["id"] !in existing && Scripted(sample, g)
    requires Filter(sample, generate(sample["instruction"], sample["input"], g.text)).Some?
    ensures Handle(sample, existing, g, generate)
            == Filter(sample, generate(sample["instruction"], sample["input"], g.text)).value
  {
  }

  /** The six counters. */
  datatype Tally = Tally(success: nat, fail: nat, json: nat, short: nat, syntax: nat, other: nat)

  /** The counters after one more route. */
  function Count(t: Tally, r: Route): Tally {
    match r
    case Skipped => t
    case JsonLike => t.(json := t.json + 1)
    case TooShort => t.(short := t.short + 1)
    case Succeeded => t.(success := t.success + 1)
    case SyntaxFailure => t.(syntax := t.syntax + 1, fail := t.fail + 1)
    case OtherFailure => t.(other := t.other + 1, fail := t.fail + 1)
  }

  /** The counters after a sequence of routes, from zero. */
  function TallyOf(routes: seq<Route>): Tally
    decreases |routes|
  {
    if routes == [] then Tally(0, 0, 0, 0, 0, 0)
    else Count(TallyOf(routes[..|routes| - 1]), routes[|routes| - 1])
  }

  /** The number of routes that are not skips. */
  function NotSkipped(routes: seq<Route>): nat
    decreases |routes|
  {
    if routes == [] then 0
    else NotSkipped(routes[..|routes| - 1]) + (if routes[|routes| - 1] == Skipped then 0 else 1)
  }

  /** `fail_count` is always `syntax_error_count + other_error_count`, and
      every task that is not skipped moves exactly one of the five route
      counters. */
  lemma {:induction false} TallyInvariant(routes: seq<Route>)
    decreases |routes|
    ensures var t := TallyOf(routes);
            t.fail == t.syntax + t.other
            && t.success + t.json + t.short + t.syntax + t.other == NotSkipped(routes)
  {
    if routes != [] {
      TallyInvariant(routes[..|routes| - 1]);
    }
  }

  /** The dataset as the loop sees it: each record given an id if it had none. */
  function Samples(recs: seq<Record>, freshIds: nat -> string): (samples: seq<Record>)
    ensures |samples| == |recs|
    ensures forall i :: 0 <= i < |recs| ==> "id" in samples[i]
    ensures forall i :: 0 <= i < |recs| && "id" in recs[i] ==> samples[i] == recs[i]
    ensures forall i :: 0 <= i < |recs| && "id" !in recs[i] ==> samples[i] - {"id"} == recs[i] && samples[i]["id"] == freshIds(i)
  {
    seq(|recs|, i requires 0 <= i < |recs| => if "id" in recs[i] then recs[i] else recs[i]["id" := freshIds(i)])
  }

  /** The files after a sequence of single-line appends. */
  function ApplyWrites(files: map<string, seq<Line>>, writes: seq<Write>): map<string, seq<Line>>
    decreases |writes|
  {
    if writes == [] then files
    else
      var w := writes[|writes| - 1];
      Appended(ApplyWrites(files, writes[..|writes| - 1]), w.path, [w.rec])
  }

  lemma ApplyWritesSnoc(files: map<string, seq<Line>>, writes: seq<Write>, w: Write)
    ensures ApplyWrites(files, writes + [w]) == Appended(ApplyWrites(files, writes), w.path, [w.rec])
  {
    assert (writes + [w])[..|writes|] == writes;
  }

  /** The writes of a sequence of handled tasks, in order. */
  function WritesOf(handled: seq<Handled>): seq<Write>
    decreases |handled|
  {
    if handled == [] then []
    else
      var h := handled[|handled| - 1];
      WritesOf(handled[..|handled| - 1]) + (if h.write.Some? then [h.write.value] else [])
  }

  /** Every task handled, against the id set read once before the loop. */
  function HandledAll(samples: seq<Record>, existing: set<string>, gens: nat -> Generation,
                      generate: (string, string, string) -> string): (hs: seq<Handled>)
    requires forall i :: 0 <= i < |samples| ==> "id" in samples[i]
    ensures |hs| == |samples|
  {
    seq(|samples|, i requires 0 <= i < |samples| => Handle(samples[i], existing, gens(i), generate))
  }

  function RoutesOf(hs: seq<Handled>): (routes: seq<Route>)
    ensures |routes| == |hs|
  {
    seq(|hs|, i requires 0 <= i < |hs| => hs[i].route)
  }

  /** One more handled task: its route is counted and its write, if any,
      comes last. */
  lemma HandledStep(hs: seq<Handled>, h: Handled)
    ensures TallyOf(RoutesOf(hs + [h])) == Count(TallyOf(RoutesOf(hs)), h.route)
    ensures h.write.Some? ==> WritesOf(hs + [h]) == WritesOf(hs) + [h.write.value]
    ensures h.write.None? ==> WritesOf(hs + [h]) == WritesOf(hs)
  {
    assert (hs + [h])[..|hs|] == hs;
    assert RoutesOf(hs + [h])[..|hs|] == RoutesOf(hs);
  }

  predicate AllParsed(lines: seq<Line>) {
    forall k :: 0 <= k < |lines| ==> lines[k].Parsed?
  }

  /** The body of `main_loop()` for a given cleanup: the id set is read from
      the generated file once; a missing or unparsable dataset raises before
      any task is handled; then every task is handled in order, each write
      appended as it happens. `None` is a run that raised. */
  method RunLoop(fs: FileSystem, freshIds: nat -> string, gens: nat -> Generation,
                 generate: (string, string, string) -> string)
    returns (tally: Option<Tally>)
    modifies fs
    ensures tally.None? <==> DataPath !in old(fs.files) || !AllParsed(old(fs.files)[DataPath])
    ensures tally.None? ==> fs.files == old(fs.files)
    ensures tally.Some? ==>
      var existing := if GeneratedPath in old(fs.files) then IdsIn(old(fs.files)[GeneratedPath]) else {};
      var hs := HandledAll(Samples(Records(old(fs.files)[DataPath]), freshIds), existing, gens, generate);
      && tally.value == TallyOf(RoutesOf(hs))
      && fs.files == ApplyWrites(old(fs.files), WritesOf(hs))
  {
    var file := if GeneratedPath in fs.files then Some(fs.files[GeneratedPath]) else None;
    var existing := LoadExistingIds(file);
    IdsInMeaning(file, existing);
    if DataPath !in fs.files {
      return None;
    }
    var lines := fs.files[DataPath];
    if exists k :: 0 <= k < |lines| && lines[k].Malformed? {
      return None;
    }
    var data := Samples(Records(lines), freshIds);
    var t := HandleTasks(fs, data, existing, gens, generate);
    return Some(t);
  }

  /** The loop over the tasks: each is handled, its route counted and its
      write appended as it happens. */
  method HandleTasks(fs: FileSystem, data: seq<Record>, existing: set<string>, gens: nat -> Generation,
                     generate: (string, string, string) -> string)
    returns (t: Tally)
    requires forall i :: 0 <= i < |data| ==> "id" in data[i]
    modifies fs
    ensures var hs := HandledAll(data, existing, gens, generate);
      && t == TallyOf(RoutesOf(hs))
      && fs.files == ApplyWrites(old(fs.files), WritesOf(hs))
  {
    ghost var before := fs.files;
    ghost var all := HandledAll(data, existing, gens, generate);
    ghost var hs: seq<Handled> := [];
    t := Tally(0, 0, 0, 0, 0, 0);
    var i := 0;
    while i < |data|
      invariant 0 <= i <= |data| && |hs| == i
      invariant hs == all[..i]
      invariant t == TallyOf(RoutesOf(hs))
      invariant fs.files == ApplyWrites(before, WritesOf(hs))
    {
      var h := Handle(data[i], existing, gens(i), generate);
      assert all[..i + 1] == hs + [h];
      Perform(fs, h, before, hs);
      HandledStep(hs, h);
      t := Count(t, h.route);
      hs := hs + [h];
      i := i + 1;
    }
    assert hs == all;
  }

  /** Appends a task's write, if any. */
  method Perform(fs: FileSystem, h: Handled, ghost before: map<string, seq<Line>>, ghost hs: seq<Handled>)
    requires fs.files == ApplyWrites(before, WritesOf(hs))
    modifies fs
    ensures fs.files == ApplyWrites(before, WritesOf(hs + [h]))
  {
    HandledStep(hs, h);
    if h.write.Some? {
      fs.Append(h.write.value.path, h.write.value.rec);
      ApplyWritesSnoc(before, WritesOf(hs), h.write.value);
    }
  }

  /** The four files a task can be appended to. */
  predicate Partition(path: string) {
    path == GeneratedPath || path == NonPythonPath || path == TooShortPath || path == ErrorsPath
  }

  /** A task's write, if any, goes to one of the four partition files. */
  lemma HandleWritesPartition(sample: Record, existing: set<string>, g: Generation,
                              generate: (string, string, string) -> string, path: string)
    requires "id" in sample
    requires !Partition(path)
    ensures var h := Handle(sample, existing, g, generate);
            h.write.Some? ==> h.write.value.path != path
  {
    if sample["id"] !in existing && Scripted(sample, g) {
      var script := generate(sample["instruction"], sample["input"], g.text);
      FilterWrites(sample, script);
      RunWrites(sample, script, g.run);
    }
  }

  /** The filters write to the non-Python or the too-short file. */
  lemma FilterWrites(sample: Record, script: string)
    ensures var f := Filter(sample, script);
            f.Some? ==> f.value.write.Some? && Partition(f.value.write.value.path)
  {
  }

  /** A run writes to the generated or the errors file. */
  lemma RunWrites(sample: Record, script: string, run: Evaluator.ProcessOutcome)
    requires "instruction" in sample && "input" in sample
    ensures var h := Run(sample, script, run);
            h.write.Some? && Partition(h.write.value.path)
  {
  }

  /** Appends to other files leave `path` as it was. */
  lemma {:induction false} ApplyWritesElsewhere(files: map<string, seq<Line>>, writes: seq<Write>, path: string)
    requires forall k :: 0 <= k < |writes| ==> writes[k].path != path
    ensures (path in ApplyWrites(files, writes)) == (path in files)
    ensures Contents(ApplyWrites(files, writes), path) == Contents(files, path)
    decreases |writes|
  {
    if writes != [] {
      ApplyWritesElsewhere(files, writes[..|writes| - 1], path);
    }
  }

  /** No write of the handled tasks goes to `path`. */
  lemma {:induction false} WritesAvoid(hs: seq<Handled>, path: string)
    requires forall i :: 0 <= i < |hs| && hs[i].write.Some? ==> hs[i].write.value.path != path
    ensures forall k :: 0 <= k < |WritesOf(hs)| ==> WritesOf(hs)[k].path != path
    decreases |hs|
  {
    if hs != [] {
      var n := |hs| - 1;
      WritesAvoid(hs[..n], path);
      HandledStep(hs[..n], hs[n]);
      assert hs[..n] + [hs[n]] == hs;
    }
  }

  /** The loop appends to the four partition files only: the dataset, and
      every other file, is left as it was. */
  lemma LoopTouchesOnlyPartitions(files: map<string, seq<Line>>, samples: seq<Record>, existing: set<string>,
                                  gens: nat -> Generation, generate: (string, string, string) -> string,
                                  path: string)
    requires forall i :: 0 <= i < |samples| ==> "id" in samples[i]
    requires !Partition(path)
    ensures var after := ApplyWrites(files, WritesOf(HandledAll(samples, existing, gens, generate)));
            (path in after) == (path in files) && Contents(after, path) == Contents(files, path)
  {
    var hs := HandledAll(samples, existing, gens, generate);
    forall i | 0 <= i < |hs| && hs[i].write.Some? ensures hs[i].write.value.path != path {
      HandleWritesPartition(samples[i], existing, gens(i), generate, path);
    }
    WritesAvoid(hs, path);
    ApplyWritesElsewhere(files, WritesOf(hs), path);
  }

  /** Handled tasks that are all skips or writeless other failures write
      nothing and count only as other failures. */
  lemma {:induction false} OnlyOtherFailures(hs: seq<Handled>)
    requires forall i :: 0 <= i < |hs| ==> hs[i].write.None? && (hs[i].route == Skipped || hs[i].route == OtherFailure)
    ensures WritesOf(hs) == []
    ensures var n := NotSkipped(RoutesOf(hs));
            TallyOf(RoutesOf(hs)) == Tally(0, n, 0, 0, 0, n)
    decreases |hs|
  {
    if hs != [] {
      var k := |hs| - 1;
      var init := hs[..k];
      OnlyOtherFailures(init);
      assert init + [hs[k]] == hs;
      HandledStep(init, hs[k]);
      assert RoutesOf(hs)[..k] == RoutesOf(init);
    }
  }

  /** When every generation raises (as the call `generate_script(model,
      tokenizer, sample)` of scripts/loop.py does against the signature
      `generate_script(pipe, sample, max_tokens)`), the loop writes nothing
      and every task not skipped counts as an other failure. */
  lemma AllRaisedWritesNothing(samples: seq<Record>, existing: set<string>, gens: nat -> Generation,
                               generate: (string, string, string) -> string)
    requires forall i :: 0 <= i < |samples| ==> "id" in samples[i]
    requires forall i :: 0 <= i < |samples| ==> gens(i) == GenRaised
    ensures var hs := HandledAll(samples, existing, gens, generate);
            var n := NotSkipped(RoutesOf(hs));
            WritesOf(hs) == [] && TallyOf(RoutesOf(hs)) == Tally(0, n, 0, 0, 0, n)
  {
    var hs := HandledAll(samples, existing, gens, generate);
    forall i | 0 <= i < |hs|
      ensures hs[i].write.None? && (hs[i].route == Skipped || hs[i].route == OtherFailure)
    {
      assert hs[i] == Handle(samples[i], existing, GenRaised, generate);
    }
    OnlyOtherFailures(hs);
  }

  /** The ids of an existing generated file, as a set. */
  function IdsIn(lines: seq<Line>): set<string> {
    set k | 0 <= k < |lines| && lines[k].Parsed? && "id" in lines[k].rec :: lines[k].rec["id"]
  }

  lemma IdsInMeaning(file: Option<seq<Line>>, ids: set<string>)
    requires file.None? ==> ids == {}
    requires file.Some? ==> forall id :: id in ids <==> IdRecorded(file.value, id)
    ensures ids == if file.Some? then IdsIn(file.value) else {}
  {
    if file.Some? {
      forall id | id in IdsIn(file.value)
        ensures id in ids
      {
        var k :| 0 <= k < |file.value| && file.value[k].Parsed? && "id" in file.value[k].rec
                 && file.value[k].rec["id"] == id;
      }
    }
  }

  /** `main_loop()`: scripts come from the cleanup of scripts/generator.py. */
  method MainLoop(fs: FileSystem, freshIds: nat -> string, gens: nat -> Generation)
    returns (tally: Option<Tally>)
    modifies fs
    ensures tally.None? <==> DataPath !in old(fs.files) || !AllParsed(old(fs.files)[DataPath])
    ensures tally.None? ==> fs.files == old(fs.files)
    ensures tally.Some? ==>
      var existing := if GeneratedPath in old(fs.files) then IdsIn(old(fs.files)[GeneratedPath]) else {};
      var hs := HandledAll(Samples(Records(old(fs.files)[DataPath]), freshIds), existing, gens, Generator.StrippedScript);
      && tally.value == TallyOf(RoutesOf(hs))
      && fs.files == ApplyWrites(old(fs.files), WritesOf(hs))
  {
    tally := RunLoop(fs, freshIds, gens, Generator.StrippedScript);
  }
}
