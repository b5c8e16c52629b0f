/** The self-correcting loop of scripts/auto_loop.py: each task of the
    dataset gets up to three attempts; an attempt generates a script, runs
    it, and passes it through the semantic gate, the quality score and three
    size filters. The first attempt that passes everything is appended to
    the generated file and to the final dataset.

    The language model, the subprocess and the quality scorer are not part
    of this model: attempt `k` of a task is an `Attempt` supplied by the
    caller. */
module AutoLoop {
  import opened Wrappers
  import opened Text
  import opened Store
  import opened Rules
  import Evaluator
  import Generator
  import Semantic
  import Batch

  const DataPath := "data/dataset.jsonl"
  const GenPath := "data/generated.jsonl"
  const FinalPath := "data/final_datasets.jsonl"

  const RetryLimit := 3
  /** The default `retry_count` of `process_sample`. */
  const FirstAttempt: nat := 0
  /** `SCORE_THRESHOLD * 100` with `SCORE_THRESHOLD = 0.7`. */
  const SyntaxThreshold: real := 70.0
  const MaxLines := 100
  const MinLines := 3
  const MaxHashes := 20

  /** The fields of `compute_score(script)` that the loop reads. */
  datatype ScoreReport = ScoreReport(syntaxValidPercent: real, lineCount: int, functionCount: int)

  /** What one attempt meets: the model raises, or it returns `text`, the
      script then runs with `run` as outcome, and the scorer either raises
      (`None`) or reports. */
  datatype Attempt =
    | PipeRaised
    | Produced(text: string, run: Evaluator.ProcessOutcome, score: Option<ScoreReport>)

  /** How an attempt ends. */
  datatype Outcome =
    | Accepted
    | RuntimeError
    | SemanticReject
    | LowSyntax
    | TooLong
    | TooShort
    | TooManyComments
    | Raised

  /** The two deterministic stages of an attempt: the cleanup of the model's
      text into a script (`generate_script` after the model call) and the
      semantic gate. `main` uses `Strict`. */
  datatype Stages = Stages(generate: (string, string, string) -> string, gate: Batch.Judge)

  /** The cleanup of scripts/generator.py followed by `.strip()`, and
      `check_semantic_compatibility` from data/semantic_checker.py. */
  function Strict(): Stages {
    Stages(Generator.StrippedScript, Semantic.CheckSemanticCompatibility)
  }

  /** `generate_script` reads `sample["instruction"]` and `sample["input"]`. */
  predicate Promptable(sample: Record) {
    "instruction" in sample && "input" in sample
  }

  /** The attempt gets as far as a script. */
  predicate Scripted(sample: Record, a: Attempt) {
    Promptable(sample) && a.Produced?
  }

  /** The script of an attempt whose model returned `text`. */
  function ScriptFor(instruction: string, input: string, text: string, stages: Stages): string {
    stages.generate(instruction, input, text)
  }

  /** The script of an attempt that got as far as one. */
  function ScriptOf(sample: Record, a: Attempt, stages: Stages): string
    requires Scripted(sample, a)
  {
    ScriptFor(sample["instruction"], sample["input"], a.text, stages)
  }

  /** The sample after the attempt: `output` holds the new script once one
      was generated, whatever happens next. */
  function AfterAttempt(sample: Record, a: Attempt, stages: Stages): (next: Record)
    ensures Scripted(sample, a) ==> next == sample["output" := ScriptOf(sample, a, stages)]
    ensures !Scripted(sample, a) ==> next == sample
  {
    if Scripted(sample, a) then sample["output" := ScriptOf(sample, a, stages)] else sample
  }

  /** The checks of one attempt on a task with this instruction and input,
      in their order, the first that fails ending the attempt. */
  function Checks(instruction: string, input: string, a: Attempt, stages: Stages): Outcome {
    if a.PipeRaised? then Raised
    else
      var script := ScriptFor(instruction, input, a.text, stages);
      if !Evaluator.EvaluateScript(a.run).success then RuntimeError
      else if stages.gate(instruction, input, script).Fail? then SemanticReject
      else if a.score.None? then Raised
      else if a.score.value.syntaxValidPercent < SyntaxThreshold then LowSyntax
      else if a.score.value.lineCount > MaxLines then TooLong
      else if a.score.value.lineCount < MinLines || a.score.value.functionCount < 1 then TooShort
      else if CountChar(script, '#') > MaxHashes then TooManyComments
      else Accepted
  }

  /** One pass through the body of `process_sample`; a sample without
      instruction or input raises before the model is called. */
  function AttemptOutcome(sample: Record, a: Attempt, stages: Stages): Outcome {
    if !Promptable(sample) then Raised else Checks(sample["instruction"], sample["input"], a, stages)
  }

  /** An attempt is accepted exactly when every check holds of its script. */
  lemma AcceptedIff(instruction: string, input: string, a: Attempt, stages: Stages)
    ensures Checks(instruction, input, a, stages) == Accepted <==>
      && a.Produced?
      && Evaluator.EvaluateScript(a.run).success
      && stages.gate(instruction, input, ScriptFor(instruction, input, a.text, stages)).Pass?
      && a.score.Some?
      && a.score.value.syntaxValidPercent >= SyntaxThreshold
      && MinLines <= a.score.value.lineCount <= MaxLines
      && a.score.value.functionCount >= 1
      && CountChar(ScriptFor(instruction, input, a.text, stages), '#') <= MaxHashes
  {
  }

  /** With the strict stages, the semantic check is the `Compatible`
      predicate of the strict gate, applied to the cleaned-up script. */
  lemma StrictAcceptedIff(instruction: string, input: string, a: Attempt)
    ensures Checks(instruction, input, a, Strict()) == Accepted <==>
      && a.Produced?
      && Evaluator.EvaluateScript(a.run).success
      && Semantic.Compatible(instruction, input, Generator.GenerateScript(instruction, input, a.text))
      && a.score.Some?
      && a.score.value.syntaxValidPercent >= SyntaxThreshold
      && MinLines <= a.score.value.lineCount <= MaxLines
      && a.score.value.functionCount >= 1
      && CountChar(Generator.GenerateScript(instruction, input, a.text), '#') <= MaxHashes
  {
    AcceptedIff(instruction, input, a, Strict());
    if a.Produced? {
      var script := Generator.GenerateScript(instruction, input, a.text);
      assert ScriptFor(instruction, input, a.text, Strict()) == script;
      Semantic.CompatibilityPassIff(instruction, input, script);
    }
  }

  /** Only the instruction and the input of the sample decide an attempt. */
  lemma OutcomeIgnoresOutput(sample: Record, a: Attempt, output: string, stages: Stages)
    ensures AttemptOutcome(sample["output" := output], a, stages) == AttemptOutcome(sample, a, stages)
    ensures Scripted(sample["output" := output], a) == Scripted(sample, a)
    ensures Scripted(sample, a) ==> ScriptOf(sample["output" := output], a, stages) == ScriptOf(sample, a, stages)
  {
    var other := sample["output" := output];
    assert Promptable(other) == Promptable(sample);
    if Promptable(sample) {
      assert other["instruction"] == sample["instruction"] && other["input"] == sample["input"];
    }
  }

  /** The result of `process_sample(pipe, sample, retry_count)`: whether it
      succeeded, the sample as it stands at the end, and how many times the
      model was called. */
  datatype Processed = Processed(ok: bool, sample: Record, calls: nat)

  /** `process_sample`, recursion and all; `pipe(k)` is what attempt `k` meets. */
  function ProcessSpec(sample: Record, retry: nat, pipe: nat -> Attempt, stages: Stages): Processed
    decreases RetryLimit - retry
  {
    if retry >= RetryLimit then Processed(false, sample, 0)
    else
      var a := pipe(retry);
      var next := AfterAttempt(sample, a, stages);
      var called := if Promptable(sample) then 1 else 0;
      if AttemptOutcome(sample, a, stages) == Accepted then Processed(true, next, called)
      else
        var rest := ProcessSpec(next, retry + 1, pipe, stages);
        Processed(rest.ok, rest.sample, rest.calls + called)
  }

  /** The model is called at most once per remaining attempt, never once the
      limit is reached, and never for a sample without instruction or input,
      which then fails with nothing changed. */
  lemma {:induction false} ProcessBounded(sample: Record, retry: nat, pipe: nat -> Attempt, stages: Stages)
    decreases RetryLimit - retry
    ensures var p := ProcessSpec(sample, retry, pipe, stages);
            p.calls <= if retry < RetryLimit then RetryLimit - retry else 0
    ensures retry >= RetryLimit ==> !ProcessSpec(sample, retry, pipe, stages).ok
    ensures !Promptable(sample) ==>
      ProcessSpec(sample, retry, pipe, stages) == Processed(false, sample, 0)
  {
    if retry < RetryLimit {
      var next := AfterAttempt(sample, pipe(retry), stages);
      ProcessBounded(next, retry + 1, pipe, stages);
    }
  }

  /** Success means some attempt within the limit passed every check, and
      the sample returned is the input sample with that attempt's script as
      its output; that attempt is the last one made, every earlier one
      failed a check, and the call succeeds whenever some attempt within
      the limit would pass. */
  lemma ProcessAccepted(sample: Record, retry: nat, pipe: nat -> Attempt, stages: Stages)
    ensures var p := ProcessSpec(sample, retry, pipe, stages);
            p.ok ==> exists k :: retry <= k < RetryLimit && Scripted(sample, pipe(k))
                      && AttemptOutcome(sample, pipe(k), stages) == Accepted
                      && p.sample == sample["output" := ScriptOf(sample, pipe(k), stages)]
    ensures var p := ProcessSpec(sample, retry, pipe, stages);
            p.ok ==> && p.calls >= 1
                     && AttemptOutcome(sample, pipe(retry + p.calls - 1), stages) == Accepted
                     && forall j :: retry <= j < retry + p.calls - 1 ==> AttemptOutcome(sample, pipe(j), stages) != Accepted
    ensures (exists k :: retry <= k < RetryLimit && AttemptOutcome(sample, pipe(k), stages) == Accepted) ==>
            ProcessSpec(sample, retry, pipe, stages).ok
  {
    AcceptedScript(sample, retry, pipe, stages);
    AcceptedLast(sample, retry, pipe, stages);
    AcceptedSucceeds(sample, retry, pipe, stages);
  }

  /** On success the sample carries the script of an attempt that passed. */
  lemma {:induction false} AcceptedScript(sample: Record, retry: nat, pipe: nat -> Attempt, stages: Stages)
    decreases RetryLimit - retry
    ensures var p := ProcessSpec(sample, retry, pipe, stages);
            p.ok ==> exists k :: retry <= k < RetryLimit && Scripted(sample, pipe(k))
                      && AttemptOutcome(sample, pipe(k), stages) == Accepted
                      && p.sample == sample["output" := ScriptOf(sample, pipe(k), stages)]
  {
    var p := ProcessSpec(sample, retry, pipe, stages);
    if retry < RetryLimit && p.ok {
      var a := pipe(retry);
      if AttemptOutcome(sample, a, stages) != Accepted {
        var next := AfterAttempt(sample, a, stages);
        AcceptedScript(next, retry + 1, pipe, stages);
        var k :| retry + 1 <= k < RetryLimit && Scripted(next, pipe(k))
                 && AttemptOutcome(next, pipe(k), stages) == Accepted
                 && p.sample == next["output" := ScriptOf(next, pipe(k), stages)];
        if Scripted(sample, a) {
          var y := ScriptOf(sample, a, stages);
          OutcomeIgnoresOutput(sample, pipe(k), y, stages);
          OutputOverwritten(sample, y, ScriptOf(sample, pipe(k), stages));
        }
      }
    }
  }

  /** On success the last attempt made is the one accepted, and every
      earlier one failed a check. */
  predicate LastAccepted(sample: Record, retry: nat, pipe: nat -> Attempt, stages: Stages) {
    var p := ProcessSpec(sample, retry, pipe, stages);
    p.ok ==> && p.calls >= 1
             && AttemptOutcome(sample, pipe(retry + p.calls - 1), stages) == Accepted
             && forall j :: retry <= j < retry + p.calls - 1 ==> AttemptOutcome(sample, pipe(j), stages) != Accepted
  }

  /** The accepted attempt is the last one made, and every earlier one failed. */
  lemma {:induction false} AcceptedLast(sample: Record, retry: nat, pipe: nat -> Attempt, stages: Stages)
    decreases RetryLimit - retry
    ensures LastAccepted(sample, retry, pipe, stages)
  {
    if retry < RetryLimit && Promptable(sample) && AttemptOutcome(sample, pipe(retry), stages) != Accepted {
      AcceptedLast(AfterAttempt(sample, pipe(retry), stages), retry + 1, pipe, stages);
      LastAfterRetry(sample, retry, pipe, stages);
    } else {
      LastAtFirst(sample, retry, pipe, stages);
    }
  }

  /** `LastAccepted` when no retry follows the first attempt. */
  lemma LastAtFirst(sample: Record, retry: nat, pipe: nat -> Attempt, stages: Stages)
    requires !(retry < RetryLimit && Promptable(sample) && AttemptOutcome(sample, pipe(retry), stages) != Accepted)
    ensures LastAccepted(sample, retry, pipe, stages)
  {
    ProcessBounded(sample, retry, pipe, stages);
    if retry < RetryLimit {
      ProcessStep(sample, retry, pipe, stages);
    }
  }

  /** The inductive step of `AcceptedLast`: a failed first attempt adds one
      call before the attempts that follow. */
  lemma LastAfterRetry(sample: Record, retry: nat, pipe: nat -> Attempt, stages: Stages)
    requires retry < RetryLimit && Promptable(sample) && AttemptOutcome(sample, pipe(retry), stages) != Accepted
    requires LastAccepted(AfterAttempt(sample, pipe(retry), stages), retry + 1, pipe, stages)
    ensures LastAccepted(sample, retry, pipe, stages)
  {
    var p := ProcessSpec(sample, retry, pipe, stages);
    var a := pipe(retry);
    var next := AfterAttempt(sample, a, stages);
    var rest := ProcessSpec(next, retry + 1, pipe, stages);
    ProcessStep(sample, retry, pipe, stages);
    assert p == Processed(rest.ok, rest.sample, rest.calls + 1);
    if p.ok {
      var last := retry + p.calls - 1;
      assert last == (retry + 1) + rest.calls - 1;
      OutcomeKept(sample, a, pipe(last), stages);
      forall j | retry <= j < last
        ensures AttemptOutcome(sample, pipe(j), stages) != Accepted
      {
        if j != retry {
          assert retry + 1 <= j < (retry + 1) + rest.calls - 1;
          OutcomeKept(sample, a, pipe(j), stages);
        }
      }
    }
  }

  /** An attempt within the limit that would pass makes the call succeed. */
  lemma AcceptedSucceeds(sample: Record, retry: nat, pipe: nat -> Attempt, stages: Stages)
    ensures (exists k :: retry <= k < RetryLimit && AttemptOutcome(sample, pipe(k), stages) == Accepted) ==>
            ProcessSpec(sample, retry, pipe, stages).ok
  {
    if exists k :: retry <= k < RetryLimit && AttemptOutcome(sample, pipe(k), stages) == Accepted {
      var k :| retry <= k < RetryLimit && AttemptOutcome(sample, pipe(k), stages) == Accepted;
      SucceedsBy(sample, retry, pipe, stages, k);
    }
  }

  /** The induction behind `AcceptedSucceeds`, for a given passing attempt `k`. */
  lemma {:induction false} SucceedsBy(sample: Record, retry: nat, pipe: nat -> Attempt, stages: Stages, k: nat)
    requires retry <= k < RetryLimit && AttemptOutcome(sample, pipe(k), stages) == Accepted
    decreases k - retry
    ensures ProcessSpec(sample, retry, pipe, stages).ok
  {
    var a := pipe(retry);
    ProcessStep(sample, retry, pipe, stages);
    if AttemptOutcome(sample, a, stages) != Accepted {
      var next := AfterAttempt(sample, a, stages);
      OutcomeKept(sample, a, pipe(k), stages);
      SucceedsBy(next, retry + 1, pipe, stages, k);
    }
  }

  /** An attempt leaves the outcome of any other attempt as it was. */
  lemma OutcomeKept(sample: Record, a: Attempt, b: Attempt, stages: Stages)
    ensures AttemptOutcome(AfterAttempt(sample, a, stages), b, stages) == AttemptOutcome(sample, b, stages)
  {
    if Scripted(sample, a) {
      OutcomeIgnoresOutput(sample, b, ScriptOf(sample, a, stages), stages);
    }
  }

  /** A second write of `output` replaces the first. */
  lemma OutputOverwritten(sample: Record, first: string, second: string)
    ensures sample["output" := first]["output" := second] == sample["output" := second]
  {
  }

  /** A failed attempt on a promptable sample: one model call, then the
      rest of the attempts on the updated sample, which prompts as before. */
  lemma RetryStep(sample: Record, retry: nat, pipe: nat -> Attempt, stages: Stages)
    requires retry < RetryLimit && Promptable(sample)
    requires AttemptOutcome(sample, pipe(retry), stages) != Accepted
    ensures var next := AfterAttempt(sample, pipe(retry), stages);
            var rest := ProcessSpec(next, retry + 1, pipe, stages);
            ProcessSpec(sample, retry, pipe, stages) == Processed(rest.ok, rest.sample, rest.calls + 1)
    ensures var next := AfterAttempt(sample, pipe(retry), stages);
            forall k :: Scripted(next, pipe(k)) == Scripted(sample, pipe(k))
    ensures var next := AfterAttempt(sample, pipe(retry), stages);
            forall k :: Scripted(sample, pipe(k)) ==> ScriptOf(next, pipe(k), stages) == ScriptOf(sample, pipe(k), stages)
  {
    var a := pipe(retry);
    if Scripted(sample, a) {
      forall k ensures Scripted(sample, pipe(k)) ==>
        ScriptOf(sample["output" := ScriptOf(sample, a, stages)], pipe(k), stages) == ScriptOf(sample, pipe(k), stages)
      {
        OutcomeIgnoresOutput(sample, pipe(k), ScriptOf(sample, a, stages), stages);
      }
    }
  }

  /** When no attempt made gets as far as a script, the sample comes back
      unchanged. */
  lemma {:induction false} ProcessUnscripted(sample: Record, retry: nat, pipe: nat -> Attempt, stages: Stages)
    decreases RetryLimit - retry
    ensures var p := ProcessSpec(sample, retry, pipe, stages);
            (forall j :: retry <= j < retry + p.calls ==> !Scripted(sample, pipe(j))) ==> p.sample == sample
  {
    var p := ProcessSpec(sample, retry, pipe, stages);
    if retry < RetryLimit && Promptable(sample) {
      if AttemptOutcome(sample, pipe(retry), stages) != Accepted {
        RetryStep(sample, retry, pipe, stages);
        var next := AfterAttempt(sample, pipe(retry), stages);
        ProcessUnscripted(next, retry + 1, pipe, stages);
        if forall j :: retry <= j < retry + p.calls ==> !Scripted(sample, pipe(j)) {
          assert !Scripted(sample, pipe(retry));
        }
      }
    } else if retry < RetryLimit {
      ProcessBounded(sample, retry, pipe, stages);
    }
  }

  /** After the attempts from `retry` on, `output` holds the script of the
      latest attempt that produced one. */
  predicate LatestKept(sample: Record, retry: nat, pipe: nat -> Attempt, stages: Stages) {
    var p := ProcessSpec(sample, retry, pipe, stages);
    forall k :: retry <= k < retry + p.calls && Scripted(sample, pipe(k))
                && (forall j :: k < j < retry + p.calls ==> !Scripted(sample, pipe(j)))
                ==> p.sample == sample["output" := ScriptOf(sample, pipe(k), stages)]
  }

  /** `output` ends as the script of the latest attempt that produced one
      (`LatestKept`), and is unchanged when no attempt produced one. */
  lemma ProcessKeepsLatest(sample: Record, retry: nat, pipe: nat -> Attempt, stages: Stages)
    ensures var p := ProcessSpec(sample, retry, pipe, stages);
            && (forall j :: retry <= j < retry + p.calls ==> !Scripted(sample, pipe(j))) ==> p.sample == sample
    ensures LatestKept(sample, retry, pipe, stages)
  {
    ProcessUnscripted(sample, retry, pipe, stages);
    LatestKeptAll(sample, retry, pipe, stages);
  }

  /** The induction behind `ProcessKeepsLatest`. */
  lemma {:induction false} LatestKeptAll(sample: Record, retry: nat, pipe: nat -> Attempt, stages: Stages)
    decreases RetryLimit - retry
    ensures LatestKept(sample, retry, pipe, stages)
  {
    if retry < RetryLimit && Promptable(sample) {
      LatestKeptAll(AfterAttempt(sample, pipe(retry), stages), retry + 1, pipe, stages);
      LatestFromFirst(sample, retry, pipe, stages);
    } else {
      NoCallsNoLatest(sample, retry, pipe, stages);
    }
  }

  /** With no model call there is no latest script to keep. */
  lemma NoCallsNoLatest(sample: Record, retry: nat, pipe: nat -> Attempt, stages: Stages)
    requires retry >= RetryLimit || !Promptable(sample)
    ensures LatestKept(sample, retry, pipe, stages)
  {
    ProcessBounded(sample, retry, pipe, stages);
    assert ProcessSpec(sample, retry, pipe, stages).calls == 0;
  }

  /** The inductive step of `ProcessKeepsLatest`. */
  lemma LatestFromFirst(sample: Record, retry: nat, pipe: nat -> Attempt, stages: Stages)
    requires retry < RetryLimit && Promptable(sample)
    requires LatestKept(AfterAttempt(sample, pipe(retry), stages), retry + 1, pipe, stages)
    ensures LatestKept(sample, retry, pipe, stages)
  {
    var p := ProcessSpec(sample, retry, pipe, stages);
    forall k | retry <= k < retry + p.calls && Scripted(sample, pipe(k))
               && (forall j :: k < j < retry + p.calls ==> !Scripted(sample, pipe(j)))
      ensures p.sample == sample["output" := ScriptOf(sample, pipe(k), stages)]
    {
      if k == retry {
        LatestIsFirst(sample, retry, pipe, stages);
      } else {
        LatestIsLater(sample, retry, pipe, stages, k);
      }
    }
  }

  /** The first attempt is the latest with a script: it is kept. */
  lemma LatestIsFirst(sample: Record, retry: nat, pipe: nat -> Attempt, stages: Stages)
    requires retry < RetryLimit && Scripted(sample, pipe(retry))
    requires var p := ProcessSpec(sample, retry, pipe, stages);
             forall j :: retry < j < retry + p.calls ==> !Scripted(sample, pipe(j))
    ensures ProcessSpec(sample, retry, pipe, stages).sample == sample["output" := ScriptOf(sample, pipe(retry), stages)]
  {
    var next := AfterAttempt(sample, pipe(retry), stages);
    if AttemptOutcome(sample, pipe(retry), stages) != Accepted {
      RetryStep(sample, retry, pipe, stages);
      ProcessUnscripted(next, retry + 1, pipe, stages);
    }
  }

  /** A later attempt is the latest with a script: the rest of the attempts
      keep it, whatever the first one wrote. */
  lemma LatestIsLater(sample: Record, retry: nat, pipe: nat -> Attempt, stages: Stages, k: nat)
    requires retry < RetryLimit && Promptable(sample)
    requires var p := ProcessSpec(sample, retry, pipe, stages);
             retry < k < retry + p.calls && Scripted(sample, pipe(k))
             && (forall j :: k < j < retry + p.calls ==> !Scripted(sample, pipe(j)))
    requires AttemptOutcome(sample, pipe(retry), stages) != Accepted ==>
      LatestKept(AfterAttempt(sample, pipe(retry), stages), retry + 1, pipe, stages)
    ensures ProcessSpec(sample, retry, pipe, stages).sample == sample["output" := ScriptOf(sample, pipe(k), stages)]
  {
    ProcessBounded(sample, retry, pipe, stages);
    assert AttemptOutcome(sample, pipe(retry), stages) != Accepted;
    RetryStep(sample, retry, pipe, stages);
    var next := AfterAttempt(sample, pipe(retry), stages);
    assert ScriptOf(next, pipe(k), stages) == ScriptOf(sample, pipe(k), stages);
    assert next["output" := ScriptOf(sample, pipe(k), stages)] == sample["output" := ScriptOf(sample, pipe(k), stages)];
  }

  /** `process_sample(pipe, sample)` as the loop it amounts to: on success
      the final sample is appended to the generated file and then to the
      final dataset; on failure nothing is written. The log is not modelled;
      every log line reads `sample["id"]`. */
  method ProcessSample(fs: FileSystem, sample: Record, retry: nat, pipe: nat -> Attempt, stages: Stages)
    returns (ok: bool, final: Record, calls: nat)
    requires "id" in sample
    modifies fs
    ensures Processed(ok, final, calls) == ProcessSpec(sample, retry, pipe, stages)
    ensures ok ==> fs.files == Appended(Appended(old(fs.files), GenPath, [final]), FinalPath, [final])
    ensures !ok ==> fs.files == old(fs.files)
  {
    var current := sample;
    var r := retry;
    calls := 0;
    while r < RetryLimit
      invariant Resumes(sample, retry, current, r, calls, pipe, stages)
      invariant fs.files == old(fs.files)
      decreases RetryLimit - r
    {
      var a := pipe(r);
      var outcome := AttemptOutcome(current, a, stages);
      ResumesStep(sample, retry, current, r, calls, pipe, stages);
      if Promptable(current) {
        calls := calls + 1;
      }
      current := AfterAttempt(current, a, stages);
      if outcome == Accepted {
        fs.Append(GenPath, current);
        fs.Append(FinalPath, current);
        return true, current, calls;
      }
      r := r + 1;
    }
    assert ProcessSpec(current, r, pipe, stages) == Processed(false, current, 0);
    return false, current, calls;
  }

  /** The loop of `process_sample` at attempt `r` with `calls` model calls
      made: what remains of the recursion from there completes the call. */
  predicate Resumes(sample: Record, retry: nat, current: Record, r: nat, calls: nat, pipe: nat -> Attempt, stages: Stages) {
    var rest := ProcessSpec(current, r, pipe, stages);
    ProcessSpec(sample, retry, pipe, stages) == Processed(rest.ok, rest.sample, rest.calls + calls)
  }

  /** One pass of the loop keeps `Resumes`, or ends the call when accepted. */
  lemma ResumesStep(sample: Record, retry: nat, current: Record, r: nat, calls: nat, pipe: nat -> Attempt, stages: Stages)
    requires r < RetryLimit && Resumes(sample, retry, current, r, calls, pipe, stages)
    ensures var a := pipe(r);
            var next := AfterAttempt(current, a, stages);
            var called := if Promptable(current) then 1 else 0;
            if AttemptOutcome(current, a, stages) == Accepted
            then ProcessSpec(sample, retry, pipe, stages) == Processed(true, next, calls + called)
            else Resumes(sample, retry, next, r + 1, calls + called, pipe, stages)
  {
    ProcessStep(current, r, pipe, stages);
  }

  /** One attempt of `process_sample`: it ends the call when accepted, and
      otherwise the remaining attempts run on the updated sample. */
  lemma ProcessStep(sample: Record, retry: nat, pipe: nat -> Attempt, stages: Stages)
    requires retry < RetryLimit
    ensures var a := pipe(retry);
            var next := AfterAttempt(sample, a, stages);
            var called := if Promptable(sample) then 1 else 0;
            var rest := ProcessSpec(next, retry + 1, pipe, stages);
            ProcessSpec(sample, retry, pipe, stages) ==
              if AttemptOutcome(sample, a, stages) == Accepted then Processed(true, next, called)
              else Processed(rest.ok, rest.sample, rest.calls + called)
  {
  }

  /** The sample the loop hands to `process_sample`: an `id` is assigned
      only when it has none. */
  function WithId(rec: Record, freshId: string): (r: Record)
    ensures "id" in r
    ensures "id" in rec ==> r == rec
    ensures "id" !in rec ==> r["id"] == freshId && r - {"id"} == rec
  {
    if "id" in rec then rec else rec["id" := freshId]
  }

  /** Task `i` of `recs` as processed by `main`. */
  function TaskResult(recs: seq<Record>, i: nat, freshIds: nat -> string, pipes: nat -> nat -> Attempt, stages: Stages): Processed
    requires i < |recs|
  {
    ProcessSpec(WithId(recs[i], freshIds(i)), FirstAttempt, pipes(i), stages)
  }

  /** The results of all tasks, in order. */
  function Results(recs: seq<Record>, freshIds: nat -> string, pipes: nat -> nat -> Attempt, stages: Stages): (results: seq<Processed>)
    ensures |results| == |recs|
  {
    seq(|recs|, i requires 0 <= i < |recs| => TaskResult(recs, i, freshIds, pipes, stages))
  }

  /** The samples of the successful results, in order. */
  function SavedOf(results: seq<Processed>): seq<Record>
    decreases |results|
  {
    if results == [] then []
    else
      var p := results[|results| - 1];
      SavedOf(results[..|results| - 1]) + (if p.ok then [p.sample] else [])
  }

  /** The samples `main` saves, in task order. */
  function Saved(recs: seq<Record>, freshIds: nat -> string, pipes: nat -> nat -> Attempt, stages: Stages): seq<Record> {
    SavedOf(Results(recs, freshIds, pipes, stages))
  }

  /** At most one sample per result is saved, and each saved sample is the
      sample of a successful result. */
  lemma {:induction false} SavedOfSound(results: seq<Processed>)
    decreases |results|
    ensures |SavedOf(results)| <= |results|
    ensures forall r :: r in SavedOf(results) ==>
      exists i :: 0 <= i < |results| && results[i].ok && results[i].sample == r
  {
    if results != [] {
      var init := results[..|results| - 1];
      SavedOfSound(init);
      forall r | r in SavedOf(results)
        ensures exists i :: 0 <= i < |results| && results[i].ok && results[i].sample == r
      {
        if r in SavedOf(init) {
          var i :| 0 <= i < |init| && init[i].ok && init[i].sample == r;
          assert results[i] == init[i];
        } else {
          assert results[|results| - 1].sample == r;
        }
      }
    }
  }

  /** Every sample of a successful result is saved. */
  lemma {:induction false} SavedOfComplete(results: seq<Processed>)
    decreases |results|
    ensures forall i :: 0 <= i < |results| && results[i].ok ==> results[i].sample in SavedOf(results)
  {
    if results != [] {
      var init := results[..|results| - 1];
      SavedOfComplete(init);
      forall i | 0 <= i < |results| && results[i].ok
        ensures results[i].sample in SavedOf(results)
      {
        if i < |init| {
          assert results[i] == init[i];
        }
      }
    }
  }

  /** Some attempt of `pipe` within the limit would pass every check on `sample`. */
  predicate Passable(sample: Record, pipe: nat -> Attempt, stages: Stages) {
    exists k :: FirstAttempt <= k < RetryLimit && AttemptOutcome(sample, pipe(k), stages) == Accepted
  }

  /** `r` is `sample` with the script of an attempt of `pipe` that passed
      every check as its output. */
  predicate FromPassedAttempt(r: Record, sample: Record, pipe: nat -> Attempt, stages: Stages) {
    exists k :: FirstAttempt <= k < RetryLimit && Scripted(sample, pipe(k))
      && AttemptOutcome(sample, pipe(k), stages) == Accepted
      && r == sample["output" := ScriptOf(sample, pipe(k), stages)]
  }

  /** Every saved sample is a dataset task, given an `id` if it had none,
      whose `output` is the script of an attempt that passed every check;
      and every task with an attempt that would pass is saved. */
  lemma SavedAccepted(recs: seq<Record>, freshIds: nat -> string, pipes: nat -> nat -> Attempt, stages: Stages)
    ensures |Saved(recs, freshIds, pipes, stages)| <= |recs|
    ensures forall r :: r in Saved(recs, freshIds, pipes, stages) ==>
      exists i :: 0 <= i < |recs| && FromPassedAttempt(r, WithId(recs[i], freshIds(i)), pipes(i), stages)
    ensures forall i :: 0 <= i < |recs| && Passable(WithId(recs[i], freshIds(i)), pipes(i), stages) ==>
      TaskResult(recs, i, freshIds, pipes, stages).sample in Saved(recs, freshIds, pipes, stages)
  {
    var results := Results(recs, freshIds, pipes, stages);
    SavedOfSound(results);
    SavedOfComplete(results);
    forall i | 0 <= i < |recs| && Passable(WithId(recs[i], freshIds(i)), pipes(i), stages)
      ensures TaskResult(recs, i, freshIds, pipes, stages).sample in Saved(recs, freshIds, pipes, stages)
    {
      ProcessAccepted(WithId(recs[i], freshIds(i)), FirstAttempt, pipes(i), stages);
      assert results[i] == TaskResult(recs, i, freshIds, pipes, stages);
    }
    forall r | r in Saved(recs, freshIds, pipes, stages)
      ensures exists i :: 0 <= i < |recs| && FromPassedAttempt(r, WithId(recs[i], freshIds(i)), pipes(i), stages)
    {
      var i :| 0 <= i < |results| && results[i].ok && results[i].sample == r;
      ProcessAccepted(WithId(recs[i], freshIds(i)), FirstAttempt, pipes(i), stages);
    }
  }

  /** What `main` ends with. */
  datatype RunSummary =
    | NoData                              // the dataset file does not exist
    | Crashed                             // a dataset line does not parse
    | Finished(total: nat, success: nat)  // the final counts

  predicate AllParsed(lines: seq<Line>) {
    forall k :: 0 <= k < |lines| ==> lines[k].Parsed?
  }

  /** The body of `main()` for given stages: without the dataset nothing
      happens; the whole dataset is parsed before any task runs; then every
      task is processed in order and the saved samples are appended to both
      output files. `freshIds(i)` is the `uuid4` drawn for task `i` when it
      needs one. */
  method RunTasks(fs: FileSystem, freshIds: nat -> string, pipes: nat -> nat -> Attempt, stages: Stages)
    returns (summary: RunSummary)
    modifies fs
    ensures DataPath !in old(fs.files) <==> summary == NoData
    ensures DataPath in old(fs.files) && !AllParsed(old(fs.files)[DataPath]) <==> summary == Crashed
    ensures !summary.Finished? ==> fs.files == old(fs.files)
    ensures summary.Finished? ==>
      var recs := Records(old(fs.files)[DataPath]);
      var saved := Saved(recs, freshIds, pipes, stages);
      && summary.total == |recs|
      && summary.success == |saved| <= summary.total
      && (saved == [] ==> fs.files == old(fs.files))
      && (saved != [] ==> fs.files == Appended(Appended(old(fs.files), GenPath, saved), FinalPath, saved))
  {
    if DataPath !in fs.files {
      return NoData;
    }
    var lines := fs.files[DataPath];
    if exists k :: 0 <= k < |lines| && lines[k].Malformed? {
      return Crashed;
    }
    var data := Records(lines);
    var success := RunAll(fs, data, freshIds, pipes, stages);
    SavedOfSound(Results(data, freshIds, pipes, stages));
    return Finished(|data|, success);
  }

  /** What the writes of `main` leave in the files once `saved` is saved. */
  predicate SavedWritten(before: map<string, seq<Line>>, now: map<string, seq<Line>>, saved: seq<Record>) {
    && (saved == [] ==> now == before)
    && (saved != [] ==> now == Appended(Appended(before, GenPath, saved), FinalPath, saved))
  }

  lemma SavedOfSnoc(results: seq<Processed>, p: Processed)
    ensures SavedOf(results + [p]) == SavedOf(results) + (if p.ok then [p.sample] else [])
  {
    assert (results + [p])[..|results|] == results;
  }

  /** The loop of `main` over all tasks. */
  method RunAll(fs: FileSystem, data: seq<Record>, freshIds: nat -> string, pipes: nat -> nat -> Attempt, stages: Stages)
    returns (success: nat)
    modifies fs
    ensures success == |Saved(data, freshIds, pipes, stages)|
    ensures SavedWritten(old(fs.files), fs.files, Saved(data, freshIds, pipes, stages))
  {
    ghost var before := fs.files;
    success := 0;
    ghost var results: seq<Processed> := [];
    var i := 0;
    while i < |data|
      invariant 0 <= i <= |data| && |results| == i
      invariant results == Results(data, freshIds, pipes, stages)[..i]
      invariant success == |SavedOf(results)|
      invariant SavedWritten(before, fs.files, SavedOf(results))
    {
      var ok, final, calls := RunOne(fs, data, i, freshIds, pipes, stages, before, SavedOf(results));
      SavedOfSnoc(results, Processed(ok, final, calls));
      ResultsPrefixStep(data, i, freshIds, pipes, stages);
      results := results + [Processed(ok, final, calls)];
      if ok {
        success := success + 1;
      }
      i := i + 1;
    }
    assert results == Results(data, freshIds, pipes, stages);
  }

  lemma ResultsPrefixStep(data: seq<Record>, i: nat, freshIds: nat -> string, pipes: nat -> nat -> Attempt, stages: Stages)
    requires i < |data|
    ensures Results(data, freshIds, pipes, stages)[..i + 1]
            == Results(data, freshIds, pipes, stages)[..i] + [TaskResult(data, i, freshIds, pipes, stages)]
  {
    var all := Results(data, freshIds, pipes, stages);
    assert all[..i + 1] == all[..i] + [all[i]];
  }

  /** One task of `main`: its sample processed, and saved when accepted. */
  method RunOne(fs: FileSystem, data: seq<Record>, i: nat, freshIds: nat -> string, pipes: nat -> nat -> Attempt, stages: Stages,
                ghost before: map<string, seq<Line>>, ghost saved: seq<Record>)
    returns (ok: bool, final: Record, calls: nat)
    requires i < |data|
    requires SavedWritten(before, fs.files, saved)
    modifies fs
    ensures Processed(ok, final, calls) == TaskResult(data, i, freshIds, pipes, stages)
    ensures SavedWritten(before, fs.files, saved + (if ok then [final] else []))
  {
    var sample := WithId(data[i], freshIds(i));
    ghost var start := fs.files;
    ok, final, calls := ProcessSample(fs, sample, FirstAttempt, pipes(i), stages);
    if ok {
      if saved != [] {
        AppendedBothStep(before, GenPath, FinalPath, saved, final);
      } else {
        assert saved + [final] == [final];
      }
    } else {
      assert saved + [] == saved;
    }
  }

  /** `main()`: the tasks run through the cleanup of scripts/generator.py
      and the strict semantic gate. */
  method AutoLoopMain(fs: FileSystem, freshIds: nat -> string, pipes: nat -> nat -> Attempt)
    returns (summary: RunSummary)
    modifies fs
    ensures DataPath !in old(fs.files) <==> summary == NoData
    ensures DataPath in old(fs.files) && !AllParsed(old(fs.files)[DataPath]) <==> summary == Crashed
    ensures !summary.Finished? ==> fs.files == old(fs.files)
    ensures summary.Finished? ==>
      var recs := Records(old(fs.files)[DataPath]);
      var saved := Saved(recs, freshIds, pipes, Strict());
      && summary.total == |recs|
      && summary.success == |saved| <= summary.total
      && (saved == [] ==> fs.files == old(fs.files))
      && (saved != [] ==> fs.files == Appended(Appended(old(fs.files), GenPath, saved), FinalPath, saved))
  {
    summary := RunTasks(fs, freshIds, pipes, Strict());
  }
}
